/** What one call of http_conn::process_read does to a connection, as a function
    on values.  Offsets stand for the char* fields; class HttpConn does the same
    work in place on the read buffer. */
module HttpParser {
  import opened CStrings
  import opened Wrappers

  const READ_BUFFER_SIZE: nat := 2048
  const JUDGE: string := "judge.html"
  const VERSION: string := "HTTP/1.1"

  // The header fields that are read, and the one value that is looked for.
  const CONNECTION: string := "Connection:"
  const CONTENT_LENGTH: string := "Content-length:"
  const HOST: string := "Host:"
  const KEEP_ALIVE: string := "keep-alive"

  datatype CheckState = REQUESTLINE | HEADER | CONTENT
  datatype LineStatus = LINE_OK | LINE_BAD | LINE_OPEN
  datatype Method = GET | POST

  /** HTTP_CODE, and OUT_OF_BOUNDS for a run the C++ standard gives no meaning to:
      a byte written outside m_read_buf or a signed overflow in parse_content. */
  datatype HttpCode = NO_REQUEST | GET_REQUEST | BAD_REQUEST | NO_RESOURCE
                    | FORBIDDEN_REQUEST | FILE_REQUEST | INTERNAL_ERROR | CLOSED_CONNECTION
                    | OUT_OF_BOUNDS

  /** `done` is m_read_buf[..m_checked_idx] and `rest` the bytes read but not yet
      scanned, m_read_buf[m_checked_idx..m_read_idx]. */
  datatype Conn = Conn(
    done: seq<char>,
    rest: seq<char>,
    startLine: nat,
    state: CheckState,
    meth: Method,
    url: Option<nat>,
    version: Option<nat>,
    host: Option<nat>,
    contentLength: int,
    linger: bool,
    cgi: bool,
    body: Option<nat>)

  function ReadIdx(c: Conn): nat { |c.done| + |c.rest| }

  ghost predicate Bounds(c: Conn) {
    c.startLine <= |c.done| && ReadIdx(c) <= READ_BUFFER_SIZE
  }

  ghost predicate EndsInCR(b: seq<char>) {
    b != [] && b[|b| - 1] == CR
  }

  /** What holds between two calls: the indices are ordered and the byte before
      m_checked_idx is never a CR. */
  ghost predicate Inv(c: Conn) {
    Bounds(c) && !EndsInCR(c.done)
  }

  /** http_conn::init */
  function Fresh(): (c: Conn)
    ensures Inv(c)
  {
    Conn([], [], 0, REQUESTLINE, GET, None, None, None, 0, false, false, None)
  }

  /** recv puts the bytes `b` behind the ones already read. */
  function Receive(c: Conn, b: seq<char>): Conn {
    c.(rest := c.rest + b)
  }

  // --- read_once ------------------------------------------------------------

  /** What one recv returns: bytes, nothing to read now, 0, or another error. */
  datatype Recv = Got(bytes: seq<char>) | Again | Closed | Failed

  /** recv returns at least one byte, and no more than it has room for. */
  predicate Fitting(r: Recv, room: int) { r.Got? ==> 0 < |r.bytes| <= room }

  ghost predicate AllFitting(results: seq<Recv>, room: int)
    decreases |results|
  {
    results != [] ==>
      Fitting(results[0], room) && (results[0].Got? ==> AllFitting(results[1..], room - |results[0].bytes|))
  }

  /** The edge-triggered loop: on until there is nothing to read now.  A full buffer leaves
      recv no room, and it returns 0. */
  function ReadAll(c: Conn, results: seq<Recv>): (bool, Conn)
    decreases |results|
  {
    if ReadIdx(c) >= READ_BUFFER_SIZE then (false, c)
    else if results == [] || results[0].Again? then (true, c)
    else if results[0].Got? then ReadAll(Receive(c, results[0].bytes), results[1..])
    else (false, c)
  }

  /** All bytes that recv returned before it failed or had nothing left. */
  function Arrived(results: seq<Recv>): seq<char>
    decreases |results|
  {
    if results == [] || !results[0].Got? then [] else results[0].bytes + Arrived(results[1..])
  }

  /** The loop succeeds exactly when it was recv that had nothing more and the buffer is
      not full: a connection whose bytes fill it is given up. */
  lemma {:induction false} ReadAllExactly(c: Conn, results: seq<Recv>)
    requires ReadIdx(c) <= READ_BUFFER_SIZE && AllFitting(results, READ_BUFFER_SIZE - ReadIdx(c))
    ensures var (ok, d) := ReadAll(c, results);
            && d == Receive(c, Arrived(results)) && ReadIdx(d) <= READ_BUFFER_SIZE
            && (ok <==> ReadIdx(d) < READ_BUFFER_SIZE && EndsQuietly(results))
    decreases |results|
  {
    if ReadIdx(c) < READ_BUFFER_SIZE && results != [] && results[0].Got? {
      var c1 := Receive(c, results[0].bytes);
      ReadAllExactly(c1, results[1..]);
      assert Receive(c1, Arrived(results[1..])) == Receive(c, Arrived(results));
    } else {
      assert c.rest + [] == c.rest;
    }
  }

  /** The first result that brings no bytes is that there is nothing to read now. */
  predicate EndsQuietly(results: seq<Recv>)
    decreases |results|
  {
    results == [] || results[0].Again? || (results[0].Got? && EndsQuietly(results[1..]))
  }

  // --- parse_line -----------------------------------------------------------

  /** m_checked_idx moves over `k` bytes. */
  function Skip(c: Conn, k: nat): Conn
    requires k <= |c.rest|
  {
    c.(done := c.done + c.rest[..k], rest := c.rest[k..])
  }

  /** parse_line at the end of the buffer, a CR or an LF. */
  function LineAt(c: Conn): (LineStatus, Conn) {
    if c.rest == [] then (LINE_OPEN, c)
    else if c.rest[0] == CR then
      if |c.rest| == 1 then (LINE_OPEN, c)
      else if c.rest[1] == LF then (LINE_OK, c.(done := c.done + [NUL, NUL], rest := c.rest[2..]))
      else (LINE_BAD, c)
    else if |c.done| > 1 && c.done[|c.done| - 1] == CR then
      (LINE_OK, c.(done := c.done[|c.done| - 1 := NUL] + [NUL], rest := c.rest[1..]))
    else (LINE_BAD, c)
  }

  function ParseLine(c: Conn): (LineStatus, Conn) {
    LineAt(Skip(c, First(c.rest, 0, CrOrLf)))
  }

  /** `b` ends in a whole line that starts at `text`, its CR LF overwritten. */
  ghost predicate LineReady(b: seq<char>, text: nat) {
    text + 2 <= |b| && b[|b| - 2] == NUL && b[|b| - 1] == NUL
  }

  /** The branch of parse_line for an LF whose CR was seen by an earlier call is
      never taken: a line that ends does so at the first CR LF pair at or after
      m_checked_idx, and only that pair changes. */
  lemma LineEndsAtPair(c: Conn)
    requires Inv(c) && ParseLine(c).0 == LINE_OK
    ensures var d := ParseLine(c).1;
            var k := |d.done| - |c.done| - 2;
            && 0 <= k < |c.rest| - 1
            && (forall i :: 0 <= i < k ==> !CrOrLf(c.rest[i]))
            && c.rest[k..k + 2] == CRLF
            && d == c.(done := c.done + c.rest[..k] + [NUL, NUL], rest := c.rest[k + 2..])
            && Inv(d) && LineReady(d.done, c.startLine)
  {
    hide ParseLine, First;
    PairTaken(c);
    var k := First(c.rest, 0, CrOrLf);
    assert |c.done + c.rest[..k] + [NUL, NUL]| == |c.done| + k + 2;
  }

  lemma PairTaken(c: Conn)
    requires !EndsInCR(c.done) && ParseLine(c).0 == LINE_OK
    ensures var k := First(c.rest, 0, CrOrLf);
            && k + 1 < |c.rest| && c.rest[k..k + 2] == CRLF
            && ParseLine(c).1 == c.(done := c.done + c.rest[..k] + [NUL, NUL], rest := c.rest[k + 2..])
  {
    hide First, LineAt;
    var k := First(c.rest, 0, CrOrLf);
    assert k > 0 ==> !CrOrLf(c.rest[k - 1]);
    var s := Skip(c, k);
    assert !EndsInCR(s.done) && s.rest == c.rest[k..];
    assert k < |c.rest| ==> s.rest[0] == c.rest[k];
    LineAtPair(s);
    assert s.rest[2..] == c.rest[k + 2..] && s.rest[..2] == c.rest[k..k + 2];
  }

  lemma LineAtPair(s: Conn)
    requires !EndsInCR(s.done) && (s.rest != [] ==> CrOrLf(s.rest[0])) && LineAt(s).0 == LINE_OK
    ensures |s.rest| >= 2 && s.rest[..2] == CRLF
    ensures LineAt(s).1 == s.(done := s.done + [NUL, NUL], rest := s.rest[2..])
  {
  }

  /** The three answers of parse_line, said of the first CR or LF it has not passed: a CR
      LF pair ends the line, a CR at the end of the bytes read (or none at all) leaves it
      open, and a lone one is bad, for good. */
  lemma LineStatusExactly(c: Conn, later: seq<char>)
    requires Inv(c)
    ensures var k, l := First(c.rest, 0, CrOrLf), ParseLine(c).0;
            && (l == LINE_OK <==> k + 1 < |c.rest| && c.rest[k..k + 2] == CRLF)
            && (l == LINE_OPEN <==> k == |c.rest| || (k + 1 == |c.rest| && c.rest[k] == CR))
            && (l == LINE_BAD ==> Bounds(Receive(c, later)) ==> ParseLine(Receive(c, later)).0 == LINE_BAD)
  {
    StatusAtFirst(c);
    var k := First(c.rest, 0, CrOrLf);
    if ParseLine(c).0 == LINE_BAD {
      hide ParseLine, First;
      var d := Receive(c, later);
      FirstIs(d.rest, 0, CrOrLf, k);
      StatusAtFirst(d);
    }
  }

  lemma StatusAtFirst(c: Conn)
    requires !EndsInCR(c.done)
    ensures var k, l := First(c.rest, 0, CrOrLf), ParseLine(c).0;
            && (l == LINE_OK <==> k + 1 < |c.rest| && c.rest[k..k + 2] == CRLF)
            && (l == LINE_OPEN <==> k == |c.rest| || (k + 1 == |c.rest| && c.rest[k] == CR))
            && (l == LINE_BAD <==> k < |c.rest| && (c.rest[k] == LF || (k + 1 < |c.rest| && c.rest[k + 1] != LF)))
  {
    var k := First(c.rest, 0, CrOrLf);
    assert k > 0 ==> !CrOrLf(c.rest[k - 1]);
    var d := Skip(c, k);
    assert !EndsInCR(d.done) && d.rest == c.rest[k..];
    assert k < |c.rest| ==> d.rest[0] == c.rest[k];
    assert k + 1 < |c.rest| ==> d.rest[1] == c.rest[k + 1] && c.rest[k..k + 2] == [c.rest[k], c.rest[k + 1]];
    LineAtExactly(d);
    hide First, Skip, LineAt;
  }

  lemma LineAtExactly(d: Conn)
    requires !EndsInCR(d.done) && (d.rest != [] ==> CrOrLf(d.rest[0]))
    ensures var l := LineAt(d).0;
            && (l == LINE_OK <==> 1 < |d.rest| && d.rest[0] == CR && d.rest[1] == LF)
            && (l == LINE_OPEN <==> d.rest == [] || (1 == |d.rest| && d.rest[0] == CR))
  {
  }

  /** A call that finds no line only moves m_checked_idx. */
  lemma NoLineKeepsBuffer(c: Conn)
    requires Inv(c) && ParseLine(c).0 != LINE_OK
    ensures ParseLine(c).1 == Skip(c, First(c.rest, 0, CrOrLf))
    ensures Inv(ParseLine(c).1)
  {
    var k := First(c.rest, 0, CrOrLf);
    assert k > 0 ==> !CrOrLf(c.rest[k - 1]);
  }

  // --- parse_request_line -----------------------------------------------------

  /** What working on a consumed line leaves alone. */
  ghost predicate LineWork(c: Conn, r: (HttpCode, Conn)) {
    && r.1.rest == c.rest && r.1.startLine == c.startLine
    && |r.1.done| == |c.done| && !EndsInCR(r.1.done)
  }

  /** strpbrk, a NUL over the blank, strspn: cut off one word and skip the blanks
      behind it; None when no blank follows the word. */
  function CutWord(b: seq<char>, i: nat): (r: Option<(seq<char>, nat)>)
    requires i + 2 <= |b| && b[|b| - 2] == NUL && b[|b| - 1] == NUL
    ensures r.Some? ==>
              var (b', next) := r.value;
              && |b'| == |b| && i < next <= |b| - 2
              && b'[..i] == b[..i] && b'[next..] == b[next..]
              && b'[|b| - 2] == NUL && b'[|b| - 1] == NUL
              && CStr(b', i) == b[i..First(b, i, BlankOrNul)]
              && next > i + |CStr(b', i)| && NotBlank(b[next])
  {
    FirstInPrefix(b, |b| - 1, i, BlankOrNul);
    var e := First(b, i, BlankOrNul);
    if b[e] == NUL then None
    else
      var b' := b[e := NUL];
      FirstInPrefix(b', |b| - 1, e + 1, NotBlank);
      var next := First(b', e + 1, NotBlank);
      assert b'[i..e] == b[i..e];
      assert NUL !in b[i..e] by {
        assert forall k :: i <= k < e ==> !BlankOrNul(b[k]);
      }
      CStrIs(b', i, b[i..e]);
      Some((b', next))
  }

  /** strchr(b + i, '/') */
  function Slash(b: seq<char>, i: nat): (r: Option<nat>)
    requires i < |b| && b[|b| - 1] == NUL
    ensures r.Some? ==> i <= r.value < i + |CStr(b, i)| && b[r.value] == '/'
  {
    FirstInPrefix(b, |b|, i, SlashOrNul);
    var j := First(b, i, SlashOrNul);
    assert j <= First(b, i, IsNul);
    if b[j] == '/' then Some(j) else None
  }

  /** The path part of the url at `i`: what follows "http://host" or "https://host". */
  function Target(b: seq<char>, i: nat): (r: Option<nat>)
    requires i < |b| && b[|b| - 1] == NUL
    ensures r.Some? ==> i <= r.value <= i + |CStr(b, i)| < |b|
  {
    CStrInPrefix(b, |b|, i);
    var u := if HasPrefixNoCase(CStr(b, i), "http://") then
               CStrTail(b, i, i + 7); Slash(b, i + 7)
             else Some(i);
    if u.Some? then
      CStrTail(b, i, u.value);
      if HasPrefixNoCase(CStr(b, u.value), "https://") then
        CStrTail(b, u.value, u.value + 8); Slash(b, u.value + 8)
      else u
    else u
  }

  /** strcat(m_url, "judge.html") when the url is the single byte '/'. */
  function AppendJudge(b: seq<char>, u: nat): (b': seq<char>)
    requires u < |b| && b[|b| - 1] == NUL
    requires |CStr(b, u)| == 1 ==> u + 12 <= |b|
    ensures |b'| == |b| && b'[|b| - 1] == NUL
  {
    if |CStr(b, u)| == 1 then b[..u + 1] + (JUDGE + [NUL]) + b[u + 12..] else b
  }

  /** The consumed line always has room for the longer name: behind the slash stand
      the blank, at least eight bytes of version and the CR LF. */
  lemma JudgeFits(b: seq<char>, u: nat, t: nat, version: nat)
    requires LineReady(b, version) && EqNoCase(CStr(b, version), VERSION)
    requires u < version && u <= t <= u + |CStr(b, u)| < version
    ensures t < |b| && (|CStr(b, t)| == 1 ==> t + 12 <= |b|)
  {
    CStrTail(b, u, t);
    FirstInPrefix(b, |b| - 1, version, IsNul);
  }

  /** m_url at `t`, "/judge.html" in place of "/". */
  function ShowPage(d: Conn, t: nat): (r: Conn)
    requires t < |d.done| && d.done[|d.done| - 1] == NUL
    requires |CStr(d.done, t)| == 1 ==> t + 12 <= |d.done|
    ensures LineWork(d, (NO_REQUEST, r)) && r.state == HEADER
  {
    d.(done := AppendJudge(d.done, t), url := Some(t), state := HEADER)
  }

  /** Any path that the url at `u` has leaves room for the longer name. */
  lemma PathRoom(b: seq<char>, u: nat, v: nat)
    requires LineReady(b, v) && u < v && u + |CStr(b, u)| < v && EqNoCase(CStr(b, v), VERSION)
    ensures b[|b| - 1] == NUL
    ensures var t := Target(b, u);
            t.Some? ==> t.value < |b| && (|CStr(b, t.value)| == 1 ==> t.value + 12 <= |b|)
  {
    var t := Target(b, u);
    hide Target, CStr;
    if t.Some? && |CStr(b, t.value)| == 1 {
      JudgeFits(b, u, t.value, v);
    }
  }

  /** The path found in the url, or none: it must start with a slash. */
  function TakePath(d: Conn, t: Option<nat>): (r: (HttpCode, Conn))
    requires d.done != [] && d.done[|d.done| - 1] == NUL
    requires t.Some? ==> t.value < |d.done| && (|CStr(d.done, t.value)| == 1 ==> t.value + 12 <= |d.done|)
    ensures LineWork(d, r)
    ensures r.0 == BAD_REQUEST || (r.0 == NO_REQUEST && r.1.state == HEADER)
  {
    hide ShowPage, CStr;
    if t.None? || d.done[t.value] != '/' then (BAD_REQUEST, d.(url := t)) else (NO_REQUEST, ShowPage(d, t.value))
  }

  /** The rest of the request line once m_version is known: check it, find the path. */
  function ParseVersion(c: Conn, u: nat, v: nat): (r: (HttpCode, Conn))
    requires LineReady(c.done, v) && u < v && u + |CStr(c.done, u)| < v
    ensures LineWork(c, r)
    ensures r.0 == BAD_REQUEST || (r.0 == NO_REQUEST && r.1.state == HEADER)
  {
    hide CStr, EqNoCase, Target, TakePath;
    var d := c.(version := Some(v));
    if !EqNoCase(CStr(c.done, v), VERSION) then (BAD_REQUEST, d)
    else
      PathRoom(c.done, u, v);
      TakePath(d, Target(c.done, u))
  }

  function ParseUrl(c: Conn, u: nat): (r: (HttpCode, Conn))
    requires LineReady(c.done, u)
    ensures LineWork(c, r)
    ensures r.0 == BAD_REQUEST || (r.0 == NO_REQUEST && r.1.state == HEADER)
  {
    hide CStr, First, ParseVersion;
    var w := CutWord(c.done, u);
    if w.None? then (BAD_REQUEST, c.(version := None, url := Some(u)))
    else
      var (b, v) := w.value;
      ParseVersion(c.(done := b, url := Some(u)), u, v)
  }

  function ParseRequestLine(c: Conn, text: nat): (r: (HttpCode, Conn))
    requires LineReady(c.done, text)
    ensures LineWork(c, r)
    ensures r.0 == BAD_REQUEST || (r.0 == NO_REQUEST && r.1.state == HEADER)
  {
    hide CStr, EqNoCase, First, ParseUrl;
    var w := CutWord(c.done, text);
    if w.None? then (BAD_REQUEST, c.(url := None))
    else
      var (b, u) := w.value;
      var meth := CStr(b, text);
      if EqNoCase(meth, "GET") then ParseUrl(c.(done := b, meth := GET), u)
      else if EqNoCase(meth, "POST") then ParseUrl(c.(done := b, meth := POST, cgi := true), u)
      else (BAD_REQUEST, c.(done := b, url := Some(text + |meth| + 1)))
  }

  lemma CutLength(b: seq<char>, i: nat)
    requires LineReady(b, i) && CutWord(b, i).Some?
    ensures var (b', next) := CutWord(b, i).value;
            i < |b'| && LineReady(b', next) && i + |CStr(b', i)| < next
  {
    hide First, CStr;
  }

  /** parse_request_line once the first word `m` has been cut off. */
  lemma FirstWordTaken(c: Conn, text: nat, b: seq<char>, u: nat)
    requires LineReady(c.done, text) && CutWord(c.done, text) == Some((b, u))
    ensures text < |b| && LineReady(b, u)
    ensures var m := CStr(b, text);
            ParseRequestLine(c, text)
            == if EqNoCase(m, "GET") then ParseUrl(c.(done := b, meth := GET), u)
               else if EqNoCase(m, "POST") then ParseUrl(c.(done := b, meth := POST, cgi := true), u)
               else (BAD_REQUEST, c.(done := b, url := Some(text + |m| + 1)))
  {
    hide ParseUrl, CutWord, CStr, EqNoCase, First;
    CutLength(c.done, text);
  }

  // --- parse_headers, parse_content ---------------------------------------------

  /** The field that the line `t` names, set from what follows the name; blanks in front
      of the value are skipped. */
  function SetField(c: Conn, text: nat, t: string): (d: Conn)
    requires LineReady(c.done, text) && t == CStr(c.done, text)
    ensures d == c.(linger := d.linger, contentLength := d.contentLength, host := d.host)
  {
    if HasPrefixNoCase(t, CONNECTION) then
      var v := First(c.done, text + 11, NotBlank);
      if EqNoCase(CStr(c.done, v), KEEP_ALIVE) then c.(linger := true) else c
    else if HasPrefixNoCase(t, CONTENT_LENGTH) then
      var v := First(c.done, text + 15, NotBlank);
      c.(contentLength := AtolToInt(CStr(c.done, v)))
    else if HasPrefixNoCase(t, HOST) then
      c.(host := Some(First(c.done, text + 5, NotBlank)))
    else c
  }

  function ParseHeaders(c: Conn, text: nat): (r: (HttpCode, Conn))
    requires LineReady(c.done, text)
    ensures LineWork(c, r) && r.1.done == c.done
    ensures r.0 == GET_REQUEST || r.0 == NO_REQUEST
  {
    var t := CStr(c.done, text);
    if t != "" then (NO_REQUEST, SetField(c, text, t))
    else if c.contentLength != 0 then (NO_REQUEST, c.(state := CONTENT))
    else (GET_REQUEST, c)
  }

  /** parse_headers on a line that is not blank, by the field it names. */
  lemma FieldTaken(c: Conn, text: nat)
    requires LineReady(c.done, text) && CStr(c.done, text) != ""
    ensures var b, t := c.done, CStr(c.done, text);
            if HasPrefixNoCase(t, CONNECTION) then
              text + 11 <= |b| &&
              var v := First(b, text + 11, NotBlank);
              ParseHeaders(c, text) == (NO_REQUEST, c.(linger := c.linger || EqNoCase(CStr(b, v), KEEP_ALIVE)))
            else if HasPrefixNoCase(t, CONTENT_LENGTH) then
              text + 15 <= |b| &&
              var v := First(b, text + 15, NotBlank);
              ParseHeaders(c, text) == (NO_REQUEST, c.(contentLength := AtolToInt(CStr(b, v))))
            else if HasPrefixNoCase(t, HOST) then
              text + 5 <= |b| &&
              ParseHeaders(c, text) == (NO_REQUEST, c.(host := Some(First(b, text + 5, NotBlank))))
            else ParseHeaders(c, text) == (NO_REQUEST, c)
  {
    hide CStr, EqNoCase, AtolToInt, First, HasPrefixNoCase;
    PrefixFits(CStr(c.done, text), CONNECTION);
    PrefixFits(CStr(c.done, text), CONTENT_LENGTH);
    PrefixFits(CStr(c.done, text), HOST);
  }

  /** parse_headers on the blank line. */
  lemma BlankTaken(c: Conn, text: nat)
    requires LineReady(c.done, text) && CStr(c.done, text) == ""
    ensures ParseHeaders(c, text)
            == if c.contentLength != 0 then (NO_REQUEST, c.(state := CONTENT)) else (GET_REQUEST, c)
  {
    hide CStr;
  }

  /** The whole of m_read_buf; the bytes not read yet are NUL. */
  function Memory(c: Conn): (m: seq<char>)
    requires ReadIdx(c) <= READ_BUFFER_SIZE
    ensures |m| == READ_BUFFER_SIZE
  {
    c.done + c.rest + seq(READ_BUFFER_SIZE - ReadIdx(c), _ => NUL)
  }

  /** `text[m_content_length] = '\0'` in the buffer of `c`. */
  function PutNul(c: Conn, end: nat): (d: Conn)
    ensures |d.done| == |c.done| && |d.rest| == |c.rest|
    ensures d == c.(done := d.done, rest := d.rest)
    ensures d.done + d.rest == if end < ReadIdx(c) then (c.done + c.rest)[end := NUL] else c.done + c.rest
  {
    if end < |c.done| then c.(done := c.done[end := NUL])
    else if end < ReadIdx(c) then c.(rest := c.rest[end - |c.done| := NUL])
    else c
  }

  function ParseContent(c: Conn, text: nat): (r: (HttpCode, Conn))
    ensures r.0 == NO_REQUEST ==> r.1 == c
    ensures |r.1.done| == |c.done| && |r.1.rest| == |c.rest| && r.1.startLine == c.startLine
  {
    var end := text + c.contentLength;
    if c.contentLength + |c.done| > INT_MAX then (OUT_OF_BOUNDS, c)
    else if ReadIdx(c) < c.contentLength + |c.done| then (NO_REQUEST, c)
    else if end < 0 || end >= READ_BUFFER_SIZE then (OUT_OF_BOUNDS, c)
    else (GET_REQUEST, PutNul(c, end).(body := Some(text)))
  }

  // --- process_read -----------------------------------------------------------------

  /** The switch on m_check_state, for a line (or the body) that starts at m_start_line. */
  function HandleLine(c: Conn): (r: (HttpCode, Conn))
    requires Bounds(c) && (c.state != CONTENT ==> LineReady(c.done, c.startLine))
    ensures Bounds(r.1) && r.1.startLine == |c.done| == |r.1.done| && |r.1.rest| == |c.rest|
    ensures r.0 == NO_REQUEST || c.state != CONTENT || r.1.state != CONTENT ==> r.1.rest == c.rest
    ensures r.0 == NO_REQUEST && Inv(c) ==> Inv(r.1)
    ensures r.0 == NO_REQUEST && c.state == CONTENT ==> r.1 == c.(startLine := |c.done|)
  {
    var d := c.(startLine := |c.done|);
    match c.state
    case REQUESTLINE => ParseRequestLine(d, c.startLine)
    case HEADER => ParseHeaders(d, c.startLine)
    case CONTENT => ParseContent(d, c.startLine)
  }

  /** The while loop of process_read; `ls` is line_status.  GET_REQUEST stands for
      the call of do_request. */
  function Loop(c: Conn, ls: LineStatus): (r: (HttpCode, Conn))
    requires Inv(c)
    ensures Bounds(r.1) && ReadIdx(r.1) == ReadIdx(c) && |c.done| <= |r.1.done|
    ensures r.0 == NO_REQUEST ==> Inv(r.1)
    decreases |c.rest|, if c.state == CONTENT && ls == LINE_OK then 1 else 0
  {
    if c.state == CONTENT && ls == LINE_OK then
      var (code, e) := HandleLine(c);
      if code != NO_REQUEST then (code, e) else Loop(e, LINE_OPEN)
    else
      var (l, d) := ParseLine(c);
      if l != LINE_OK then
        NoLineKeepsBuffer(c);
        (NO_REQUEST, d)
      else
        LineEndsAtPair(c);
        var (code, e) := HandleLine(d);
        if code != NO_REQUEST then (code, e)
        else Loop(e, if d.state == CONTENT then LINE_OPEN else LINE_OK)
  }

  function ProcessRead(c: Conn): (r: (HttpCode, Conn))
    requires Inv(c)
    ensures Bounds(r.1) && ReadIdx(r.1) == ReadIdx(c) && |c.done| <= |r.1.done|
    ensures r.0 == NO_REQUEST ==> Inv(r.1)
  {
    Loop(c, LINE_OK)
  }

  ghost predicate IsTail(x: seq<char>, y: seq<char>) {
    |x| <= |y| && x == y[|y| - |x|..]
  }

  lemma SuffixIsTail(y: seq<char>, k: nat)
    requires k <= |y|
    ensures IsTail(y[k..], y) && IsTail(y, y)
  {
  }

  lemma TailOfTail(x: seq<char>, y: seq<char>, z: seq<char>)
    requires IsTail(x, y) && IsTail(y, z)
    ensures IsTail(x, z)
  {
  }

  lemma LoopOnBody(c: Conn)
    requires Inv(c) && c.state == CONTENT
    ensures var (code, e) := HandleLine(c);
            if code != NO_REQUEST then Loop(c, LINE_OK) == (code, e)
            else e == c.(startLine := |c.done|) && Inv(e) && Loop(c, LINE_OK) == Loop(e, LINE_OPEN)
  {
    hide HandleLine, ParseLine;
  }

  /** A round on a line: `d` is the parser behind the line, `e` when it has been handled. */
  lemma LoopOnLine(c: Conn, ls: LineStatus)
    requires Inv(c) && !(c.state == CONTENT && ls == LINE_OK)
    ensures var (l, d) := ParseLine(c);
            if l != LINE_OK then Loop(c, ls) == (NO_REQUEST, d) && IsTail(d.rest, c.rest)
            else
              Bounds(d) && LineReady(d.done, d.startLine) && |d.rest| < |c.rest| && IsTail(d.rest, c.rest) &&
              var (code, e) := HandleLine(d);
              && (code == NO_REQUEST || d.state != CONTENT || e.state != CONTENT ==> e.rest == d.rest)
              && if code != NO_REQUEST then Loop(c, ls) == (code, e)
                 else Inv(e) && Loop(c, ls) == Loop(e, if d.state == CONTENT then LINE_OPEN else LINE_OK)
  {
    hide HandleLine, ParseLine, IsTail;
    if ParseLine(c).0 == LINE_OK {
      LineEndsAtPair(c);
      SuffixIsTail(c.rest, |ParseLine(c).1.done| - |c.done|);
    } else {
      NoLineKeepsBuffer(c);
      SuffixIsTail(c.rest, First(c.rest, 0, CrOrLf));
    }
  }

  /** No byte at or after m_checked_idx changes before the request is complete: the
      bytes still to be scanned are the last of the ones that were.  Only
      parse_content, which completes a request, writes among them. */
  lemma {:induction false} UnreadBytesKept(c: Conn, ls: LineStatus)
    requires Inv(c)
    ensures var (code, d) := Loop(c, ls);
            code == NO_REQUEST || d.state != CONTENT ==> IsTail(d.rest, c.rest)
    decreases |c.rest|, if c.state == CONTENT && ls == LINE_OK then 1 else 0
  {
    hide Loop, HandleLine, ParseLine, IsTail;
    if c.state == CONTENT && ls == LINE_OK {
      LoopOnBody(c);
      SuffixIsTail(c.rest, 0);
      var (code, e) := HandleLine(c);
      if code == NO_REQUEST {
        UnreadBytesKept(e, LINE_OPEN);
      }
    } else {
      LoopOnLine(c, ls);
      var (l, d) := ParseLine(c);
      if l == LINE_OK {
        var (code, e) := HandleLine(d);
        if code == NO_REQUEST {
          var next := if d.state == CONTENT then LINE_OPEN else LINE_OK;
          UnreadBytesKept(e, next);
          var f := Loop(e, next);
          if f.0 == NO_REQUEST || f.1.state != CONTENT {
            TailOfTail(f.1.rest, d.rest, c.rest);
          }
        }
      }
    }
  }
}
