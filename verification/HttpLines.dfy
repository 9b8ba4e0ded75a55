/** What the parser makes of one whole line, for the lines the programs of this
    repository print. */
module HttpLines {
  import opened CStrings
  import opened HttpParser
  import opened HttpChunking
  import opened Wrappers

  /** A line without CR, LF or NUL. */
  predicate PlainText(s: string) {
    forall i :: 0 <= i < |s| ==> s[i] != CR && s[i] != LF && s[i] != NUL
  }

  lemma PlainConcat(s: string, t: string)
    requires PlainText(s) && PlainText(t)
    ensures PlainText(s + t)
  {
  }

  /** The parser once the line `line` has been taken. */
  function Took(c: Conn, line: string, more: seq<char>): Conn {
    c.(done := c.done + line + [NUL, NUL], rest := more)
  }

  /** The state when parse_headers is called on that line. */
  function Past(c: Conn, line: string, more: seq<char>): Conn {
    Took(c, line, more).(startLine := |c.done| + |line| + 2)
  }

  lemma TakesLine(c: Conn, line: string, more: seq<char>)
    requires PlainText(line) && c.rest == line + CRLF + more
    ensures ParseLine(c) == (LINE_OK, Took(c, line, more))
    ensures CStr(Took(c, line, more).done, |c.done|) == line
  {
    var k := |line|;
    assert forall i :: 0 <= i < k ==> c.rest[i] == line[i];
    assert c.rest[k] == CR && c.rest[k + 1] == LF;
    FirstIs(c.rest, 0, CrOrLf, k);
    assert c.rest[..k] == line && c.rest[k + 2..] == more;
    assert c.rest[k..][2..] == more;
    var b := Took(c, line, more).done;
    assert b[|c.done|..|c.done| + k] == line;
    CStrIs(b, |c.done|, line);
  }

  /** The value behind `x`, which ends in blanks from `i` on. */
  lemma ValueBehind(b: seq<char>, x: seq<char>, i: nat, v: nat, value: string)
    requires b == x + value + [NUL, NUL] && i <= v == |x|
    requires forall k :: i <= k < |x| ==> IsBlank(x[k])
    requires PlainText(value) && (value != "" ==> NotBlank(value[0]))
    ensures First(b, i, NotBlank) == v && CStr(b, v) == value
  {
    assert b[|x|..|x| + |value|] == value;
    FirstIs(b, i, NotBlank, |x|);
    CStrIs(b, |x|, value);
  }

  /** The parser is about to read a header line. */
  ghost predicate InHeaders(c: Conn) {
    Inv(c) && c.state == HEADER && c.startLine == |c.done|
  }

  lemma HeaderPhaseStep(c: Conn)
    requires Inv(c) && c.state != CONTENT && ParseLine(c).0 == LINE_OK
    requires Bounds(ParseLine(c).1) && LineReady(ParseLine(c).1.done, c.startLine)
    ensures var (code, e) := HandleLine(ParseLine(c).1);
            if code == NO_REQUEST then Inv(e) && HeaderPhase(c) == HeaderPhase(e)
            else HeaderPhase(c) == Done(code, e)
  {
    hide HandleLine, ParseLine;
    LineEndsAtPair(c);
  }

  predicate KnownHeader(line: string) {
    || HasPrefixNoCase(line, CONNECTION)
    || HasPrefixNoCase(line, CONTENT_LENGTH)
    || HasPrefixNoCase(line, HOST)
  }

  /** One loop round on the header line `line`. */
  lemma HeaderRound(c: Conn, line: string, more: seq<char>)
    requires InHeaders(c) && PlainText(line) && line != "" && c.rest == line + CRLF + more
    ensures var t := Past(c, line, more);
            LineReady(t.done, |c.done|) &&
            var (code, d) := ParseHeaders(t, |c.done|);
            code == NO_REQUEST && InHeaders(d) && d.rest == more && HeaderPhase(c) == HeaderPhase(d)
  {
    hide LineAt, HandleLine, ParseHeaders, HeaderPhase, CStr;
    TakesLine(c, line, more);
    LineEndsAtPair(c);
    HeaderPhaseStep(c);
    hide ParseLine;
    HandleHeader(Took(c, line, more));
    FieldLine(Past(c, line, more), |c.done|);
  }

  lemma FieldLine(c: Conn, text: nat)
    requires c.state == HEADER && LineReady(c.done, text) && CStr(c.done, text) != ""
    ensures var (code, d) := ParseHeaders(c, text);
            code == NO_REQUEST && d.state == HEADER && LineWork(c, (code, d))
  {
    hide CStr, HasPrefixNoCase, EqNoCase, AtolToInt;
  }

  lemma HandleHeader(c: Conn)
    requires c.state == HEADER && Bounds(c) && LineReady(c.done, c.startLine)
    ensures HandleLine(c) == ParseHeaders(c.(startLine := |c.done|), c.startLine)
  {
  }

  lemma Regroup(x: seq<char>, name: string, gap: string, value: string, z: seq<char>)
    ensures x + (name + gap + value) + z == (x + name + gap) + value + z
  {
  }

  lemma StartsWith(name: string, header: string, more: string)
    requires EqNoCase(name, header)
    ensures HasPrefixNoCase(name + more, header)
  {
    assert (name + more)[..|name|] == name;
  }

  lemma TakenLine(c: Conn, name: string, gap: string, value: string, more: seq<char>)
    ensures Past(c, name + gap + value, more).done == (c.done + name + gap) + value + [NUL, NUL]
  {
    Regroup(c.done, name, gap, value, [NUL, NUL]);
  }

  /** Where the value of the line `name` `gap` `value` is found once it is taken. */
  lemma NamedValue(c: Conn, name: string, gap: string, value: string, more: seq<char>)
    requires gap == "" || gap == " "
    requires PlainText(value) && (value != "" ==> NotBlank(value[0]))
    ensures var b := Past(c, name + gap + value, more).done;
            var v := |c.done| + |name| + |gap|;
            v <= |b| && First(b, |c.done| + |name|, NotBlank) == v && CStr(b, v) == value
  {
    hide First, CStr, PlainText, Past, NotBlank;
    var x := c.done + name + gap;
    assert forall k :: |c.done| + |name| <= k < |x| ==> x[k] == ' ';
    TakenLine(c, name, gap, value, more);
    ValueBehind(Past(c, name + gap + value, more).done, x, |c.done| + |name|, |x|, value);
  }

  /** The line `name` `gap` `value` as parse_headers sees it. */
  lemma NamedLine(c: Conn, name: string, header: string, gap: string, value: string, more: seq<char>)
    requires PlainText(name) && PlainText(gap + value)
    requires EqNoCase(name, header)
    ensures var line := name + gap + value;
            PlainText(line) && HasPrefixNoCase(line, header) && CStr(Past(c, line, more).done, |c.done|) == line
  {
    assert name + gap + value == name + (gap + value);
    StartsWith(name, header, gap + value);
    PlainConcat(name, gap + value);
    hide LineAt;
    TakesLine(c.(rest := name + gap + value + CRLF + more), name + gap + value, more);
  }

  /** `name` is the field `header`, up to upper and lower case. */
  predicate Spells(name: string, header: string) {
    name != "" && PlainText(name) && EqNoCase(name, header)
  }

  /** One loop round on the header line `name` `gap` `value`. */
  lemma NamedRound(c: Conn, name: string, header: string, gap: string, value: string, more: seq<char>)
    requires InHeaders(c) && c.rest == name + gap + value + CRLF + more
    requires gap == "" || gap == " "
    requires Spells(name, header)
    requires PlainText(value) && (value != "" ==> NotBlank(value[0]))
    ensures var line := name + gap + value;
            var t := Past(c, line, more);
            var v := |c.done| + |name| + |gap|;
            && CStr(t.done, |c.done|) == line != "" && HasPrefixNoCase(line, header)
            && First(t.done, |c.done| + |name|, NotBlank) == v && CStr(t.done, v) == value
            && LineReady(t.done, |c.done|)
            && var (code, d) := ParseHeaders(t, |c.done|);
               InHeaders(d) && HeaderPhase(c) == HeaderPhase(d)
  {
    assert name != "" && PlainText(name) && EqNoCase(name, header);
    PlainConcat(gap, value);
    hide *;
    NamedValue(c, name, gap, value, more);
    NamedLine(c, name, header, gap, value, more);
    HeaderRound(c, name + gap + value, more);
  }

  /** How http_conn itself spells the field it reads as "Content-length:". */
  const PRINTED_LENGTH: string := "Content-Length:"

  lemma NamesDiffer()
    ensures |PRINTED_LENGTH| == 15 && |CONNECTION| == 11 && |HOST| == 5
    ensures Spells(PRINTED_LENGTH, CONTENT_LENGTH) && Spells(CONNECTION, CONNECTION) && Spells(HOST, HOST)
    ensures Differ(CONTENT_LENGTH, CONNECTION, 3) && Differ(HOST, CONNECTION, 0) && Differ(HOST, CONTENT_LENGTH, 0)
  {
  }

  lemma ContentLengthRound(c: Conn, gap: string, value: string, more: seq<char>)
    requires InHeaders(c) && c.rest == PRINTED_LENGTH + gap + value + CRLF + more
    requires gap == "" || gap == " "
    requires PlainText(value) && (value != "" ==> NotBlank(value[0]))
    ensures var d := Past(c, PRINTED_LENGTH + gap + value, more).(contentLength := AtolToInt(value));
            InHeaders(d) && HeaderPhase(c) == HeaderPhase(d)
  {
    hide *;
    NamesDiffer();
    var line := PRINTED_LENGTH + gap + value;
    NamedRound(c, PRINTED_LENGTH, CONTENT_LENGTH, gap, value, more);
    NotThatHeader(line, CONTENT_LENGTH, CONNECTION, 3);
    FieldTaken(Past(c, line, more), |c.done|);
  }

  predicate Differ(name: string, other: string, i: nat) {
    i < |name| && i < |other| && Lower(name[i]) != Lower(other[i])
  }

  /** Two header names that differ at `i` do not both start a line. */
  lemma NotThatHeader(line: string, name: string, other: string, i: nat)
    requires HasPrefixNoCase(line, name) && Differ(name, other, i)
    ensures !HasPrefixNoCase(line, other)
  {
    assert Lower(line[..|name|][i]) == Lower(name[i]);
    if |other| <= |line| {
      assert line[..|other|][i] == line[..|name|][i];
    }
  }

  lemma ConnectionRound(c: Conn, gap: string, value: string, more: seq<char>)
    requires InHeaders(c) && c.rest == CONNECTION + gap + value + CRLF + more
    requires gap == "" || gap == " "
    requires PlainText(value) && (value != "" ==> NotBlank(value[0]))
    ensures var d := Past(c, CONNECTION + gap + value, more)
                       .(linger := c.linger || EqNoCase(value, KEEP_ALIVE));
            InHeaders(d) && HeaderPhase(c) == HeaderPhase(d)
  {
    assert Past(c, CONNECTION + gap + value, more).linger == c.linger;
    hide *;
    NamesDiffer();
    NamedRound(c, CONNECTION, CONNECTION, gap, value, more);
    FieldTaken(Past(c, CONNECTION + gap + value, more), |c.done|);
  }

  lemma HostRound(c: Conn, gap: string, value: string, more: seq<char>)
    requires InHeaders(c) && c.rest == HOST + gap + value + CRLF + more
    requires gap == "" || gap == " "
    requires PlainText(value) && (value != "" ==> NotBlank(value[0]))
    ensures var v := |c.done| + |HOST| + |gap|;
            var d := Past(c, HOST + gap + value, more).(host := Some(v));
            InHeaders(d) && HeaderPhase(c) == HeaderPhase(d) && CStr(d.done, v) == value
  {
    hide *;
    NamesDiffer();
    var line := HOST + gap + value;
    NamedRound(c, HOST, HOST, gap, value, more);
    NotThatHeader(line, HOST, CONNECTION, 0);
    NotThatHeader(line, HOST, CONTENT_LENGTH, 0);
    FieldTaken(Past(c, line, more), |c.done|);
  }

  lemma OtherRound(c: Conn, line: string, more: seq<char>)
    requires InHeaders(c) && c.rest == line + CRLF + more
    requires PlainText(line) && line != "" && !KnownHeader(line)
    ensures var d := Past(c, line, more);
            InHeaders(d) && HeaderPhase(c) == HeaderPhase(d)
  {
    hide HeaderPhase, AtolToInt, CStr, HasPrefixNoCase;
    HeaderRound(c, line, more);
    TakesLine(c, line, more);
  }

  lemma TakesBlank(c: Conn, more: seq<char>)
    requires InHeaders(c) && c.rest == CRLF + more
    ensures ParseLine(c) == (LINE_OK, Took(c, "", more))
    ensures var d := Took(c, "", more);
            Inv(d) && LineReady(d.done, d.startLine) && d.startLine == |c.done| && CStr(d.done, |c.done|) == ""
  {
    hide ParseLine, CStr;
    assert c.rest == "" + CRLF + more;
    TakesLine(c, "", more);
    LineEndsAtPair(c);
  }

  lemma BodyNext(c: Conn)
    requires Inv(c) && c.state == CONTENT
    ensures HeaderPhase(c) == AtBody(c)
  {
  }

  /** The blank line ends the headers: a request without a body is complete. */
  lemma BlankRound(c: Conn, more: seq<char>)
    requires InHeaders(c) && c.rest == CRLF + more
    ensures var d := Past(c, "", more);
            HeaderPhase(c) == if c.contentLength == 0 then Done(GET_REQUEST, d)
                              else AtBody(d.(state := CONTENT))
  {
    hide ParseLine, HandleLine, ParseHeaders, CStr, HeaderPhase;
    TakesBlank(c, more);
    HandleHeader(Took(c, "", more));
    BlankTaken(Past(c, "", more), |c.done|);
    HeaderPhaseStep(c);
    if c.contentLength != 0 {
      BodyNext(Past(c, "", more).(state := CONTENT));
    }
  }

  // --- the request line ----------------------------------------------------------

  /** A word of the request line. */
  predicate Word(s: string) {
    s != "" && forall i :: 0 <= i < |s| ==> !BlankOrNul(s[i])
  }

  lemma CutsWord(b: seq<char>, x: seq<char>, word: string, more: seq<char>)
    requires Word(word) && |more| >= 2 && more[|more| - 2] == NUL && more[|more| - 1] == NUL
    requires b == x + word + " " + more && NotBlank(more[0])
    ensures CutWord(b, |x|) == Some((x + word + [NUL] + more, |x| + |word| + 1))
    ensures CStr(x + word + [NUL] + more, |x|) == word
  {
    hide CStr, First, CutWord, Word;
    var e := |x| + |word|;
    var b' := x + word + [NUL] + more;
    WordIsCut(x, word, more);
    WordEnds(b, x, word, more);
    Replaced(x, word, ' ', NUL, more);
    FirstIs(b', e + 1, NotBlank, e + 1);
    CutWordIs(b, |x|, e, e + 1);
  }

  lemma WordIsCut(x: seq<char>, word: string, more: seq<char>)
    requires Word(word)
    ensures CStr(x + word + [NUL] + more, |x|) == word
  {
    var b := x + word + [NUL] + more;
    assert b[|x|..|x| + |word|] == word;
    CStrIs(b, |x|, word);
  }

  lemma Replaced<T>(x: seq<T>, y: seq<T>, t: T, u: T, more: seq<T>)
    requires more != []
    ensures var b, e := x + y + [t] + more, |x| + |y|;
            b[e] == t && b[e := u] == x + y + [u] + more && (x + y + [u] + more)[e + 1] == more[0]
  {
  }

  lemma CutWordIs(b: seq<char>, i: nat, e: nat, next: nat)
    requires LineReady(b, i) && e < |b| && First(b, i, BlankOrNul) == e && b[e] != NUL
    requires First(b[e := NUL], e + 1, NotBlank) == next
    ensures CutWord(b, i) == Some((b[e := NUL], next))
  {
    hide CStr, First;
  }

  lemma WordEnds(b: seq<char>, x: seq<char>, word: string, more: seq<char>)
    requires Word(word) && b == x + word + " " + more
    ensures First(b, |x|, BlankOrNul) == |x| + |word|
  {
    assert forall i :: |x| <= i < |x| + |word| ==> b[i] == word[i - |x|];
    hide First;
    FirstIs(b, |x|, BlankOrNul, |x| + |word|);
  }

  /** `b` holds the C string `s` at `i`. */
  ghost predicate Holds(b: seq<char>, i: nat, s: string) {
    i <= |b| && CStr(b, i) == s && i + |s| < |b|
  }

  /** The page a path stands for. */
  function Page(path: string): string {
    if path == "/" then "/judge.html" else path
  }

  lemma PathFound(b: seq<char>, x: seq<char>, path: string, more: seq<char>)
    requires Word(path) && path[0] == '/' && |more| >= 10 && more[|more| - 1] == NUL
    requires b == x + path + [NUL] + more
    ensures CStr(b, |x|) == path && Target(b, |x|) == Some(|x|)
    ensures |path| == 1 ==> |x| + 12 <= |b|
  {
    assert b[|x|..|x| + |path|] == path;
    assert b[|x| + |path|] == NUL;
    CStrIs(b, |x|, path);
    assert !HasPrefixNoCase(path, "http://") && !HasPrefixNoCase(path, "https://") by {
      hide Word;
      assert Lower(path[0]) == '/';
    }
  }

  /** "/" becomes "/judge.html" in place. */
  lemma JudgeShown(b: seq<char>, t: nat)
    requires t < |b| && b[|b| - 1] == NUL && b[t] == '/'
    requires |CStr(b, t)| == 1 ==> t + 12 <= |b|
    ensures CStr(AppendJudge(b, t), t) == Page(CStr(b, t))
  {
    if |CStr(b, t)| == 1 {
      CharsOf(b, t, 0);
      assert CStr(b, t) == "/";
      var j := AppendJudge(b, t);
      assert j[t..t + 11] == "/judge.html";
      CStrIs(j, t, "/judge.html");
    } else {
      assert CStr(b, t) != "/";
    }
  }

  predicate IsMethod(m: string) {
    Word(m) && (EqNoCase(m, "GET") || EqNoCase(m, "POST"))
  }

  /** The parser behind the request line `m` `path` HTTP/1.1. */
  function Requested(c: Conn, m: string, path: string, more: seq<char>): (d: Conn)
    requires Word(path) && path[0] == '/'
  {
    var u := |c.done| + |m| + 1;
    var cut := c.done + m + [NUL] + path + [NUL] + VERSION_END;
    PathFound(cut, c.done + m + [NUL], path, VERSION_END);
    c.(done := AppendJudge(cut, u), rest := more, startLine := |cut|, state := HEADER,
       meth := if EqNoCase(m, "GET") then GET else POST, cgi := c.cgi || !EqNoCase(m, "GET"),
       url := Some(u), version := Some(u + |path| + 1))
  }

  const VERSION_END: seq<char> := VERSION + [NUL, NUL]

  lemma VersionFound(x: seq<char>, path: string)
    requires Word(path) && path[0] == '/'
    ensures var cut := x + path + [NUL] + VERSION_END;
            var v := |x| + |path| + 1;
            && CStr(cut, |x|) == path && Target(cut, |x|) == Some(|x|)
            && (|path| == 1 ==> |x| + 12 <= |cut|)
            && LineReady(cut, v) && cut[|x|] == '/' && EqNoCase(CStr(cut, v), VERSION)
  {
    var cut := x + path + [NUL] + VERSION_END;
    PathFound(cut, x, path, VERSION_END);
    var v := |x| + |path| + 1;
    assert cut[v..v + 8] == VERSION;
    CStrIs(cut, v, VERSION);
  }

  lemma UrlWords(c: Conn, x: seq<char>, path: string)
    requires Word(path) && path[0] == '/' && c.done == x + path + " " + VERSION_END
    ensures var cut := x + path + [NUL] + VERSION_END;
            LineReady(c.done, |x|) && CStr(cut, |x|) == path && (|path| == 1 ==> |x| + 12 <= |cut|) &&
            ParseUrl(c, |x|) == (NO_REQUEST, c.(done := AppendJudge(cut, |x|), state := HEADER,
                                                url := Some(|x|), version := Some(|x| + |path| + 1)))
  {
    hide CutWord, Target, CStr, AppendJudge, EqNoCase, Word;
    CutsWord(c.done, x, path, VERSION_END);
    VersionFound(x, path);
  }

  lemma RegroupRequest(x: seq<char>, m: string, gap: string, path: string, v: string, z: seq<char>)
    ensures x + (m + gap + path + gap + v) + z == x + m + gap + (path + gap + (v + z))
  {
  }

  lemma RegroupUrl(x: seq<char>, path: string, gap: string, z: seq<char>)
    ensures x + (path + gap + z) == x + path + gap + z
  {
  }

  lemma MethodCut(x: seq<char>, m: string, path: string)
    requires Word(m) && Word(path)
    ensures var b := x + (m + " " + path + " " + VERSION) + [NUL, NUL];
            var cut := x + m + [NUL] + path + " " + VERSION_END;
            LineReady(b, |x|) && CutWord(b, |x|) == Some((cut, |x| + |m| + 1)) && CStr(cut, |x|) == m
  {
    RegroupRequest(x, m, " ", path, VERSION, [NUL, NUL]);
    RegroupUrl(x + m + [NUL], path, " ", VERSION_END);
    CutsWord(x + (m + " " + path + " " + VERSION) + [NUL, NUL], x, m, path + " " + VERSION_END);
  }

  lemma UrlRequested(c: Conn, m: string, path: string, more: seq<char>, t: Conn)
    requires IsMethod(m) && Word(path) && path[0] == '/'
    requires t == Past(c, m + " " + path + " " + VERSION, more)
                  .(done := c.done + m + [NUL] + path + " " + VERSION_END,
                    meth := if EqNoCase(m, "GET") then GET else POST,
                    cgi := c.cgi || !EqNoCase(m, "GET"))
    ensures var u := |c.done| + |m| + 1;
            LineReady(t.done, u) && ParseUrl(t, u) == (NO_REQUEST, Requested(c, m, path, more))
  {
    hide CStr, AppendJudge, Word, EqNoCase, ParseUrl, LineReady;
    UrlWords(t, c.done + m + [NUL], path);
  }

  lemma RequestWords(c: Conn, m: string, path: string, more: seq<char>, t: Conn)
    requires IsMethod(m) && Word(path) && path[0] == '/'
    requires t == Past(c, m + " " + path + " " + VERSION, more) && LineReady(t.done, |c.done|)
    ensures ParseRequestLine(t, |c.done|) == (NO_REQUEST, Requested(c, m, path, more))
  {
    hide CutWord, CStr, EqNoCase, ParseUrl, Requested, LineReady, ParseRequestLine, Word;
    MethodCut(c.done, m, path);
    var cut := c.done + m + [NUL] + path + " " + VERSION_END;
    FirstWordTaken(t, |c.done|, cut, |c.done| + |m| + 1);
    UrlRequested(c, m, path, more, t.(done := cut, meth := if EqNoCase(m, "GET") then GET else POST,
                                      cgi := c.cgi || !EqNoCase(m, "GET")));
  }

  lemma HandleRequestLine(c: Conn)
    requires c.state == REQUESTLINE && Bounds(c) && LineReady(c.done, c.startLine)
    ensures HandleLine(c) == ParseRequestLine(c.(startLine := |c.done|), c.startLine)
  {
    hide ParseRequestLine;
  }

  lemma PlainRequest(m: string, path: string)
    requires PlainText(m) && PlainText(path)
    ensures PlainText(m + " " + path + " " + VERSION)
  {
    PlainConcat(m + " ", path);
    PlainConcat(m + " " + path, " ");
    PlainConcat(m + " " + path + " ", VERSION);
  }

  lemma RequestPage(c: Conn, m: string, path: string, more: seq<char>)
    requires Word(path) && path[0] == '/'
    ensures var d := Requested(c, m, path, more);
            && d.state == HEADER && d.startLine == |d.done| == |c.done| + |m| + |path| + 12 && d.rest == more
            && CStr(d.done, |c.done| + |m| + 1) == Page(path)
  {
    hide CStr, Target, Word, EqNoCase, First, Page;
    var x := c.done + m + [NUL];
    VersionFound(x, path);
    hide AppendJudge;
    JudgeShown(x + path + [NUL] + VERSION_END, |x|);
  }

  /** The whole request line, up to the headers. */
  lemma RequestRound(c: Conn, m: string, path: string, more: seq<char>)
    requires Inv(c) && c.state == REQUESTLINE && c.startLine == |c.done|
    requires IsMethod(m) && Word(path) && path[0] == '/' && PlainText(m) && PlainText(path)
    requires c.rest == m + " " + path + " " + VERSION + CRLF + more
    ensures var d := Requested(c, m, path, more);
            && InHeaders(d) && HeaderPhase(c) == HeaderPhase(d)
            && CStr(d.done, |c.done| + |m| + 1) == Page(path)
            && |d.done| == |c.done| + |m| + |path| + 12
  {
    var line := m + " " + path + " " + VERSION;
    RequestPage(c, m, path, more);
    PlainRequest(m, path);
    hide CStr, AppendJudge, Word, ParseRequestLine, HandleLine, HeaderPhase, LineAt, PlainText, Page, Requested;
    TakesLine(c, line, more);
    LineEndsAtPair(c);
    HeaderPhaseStep(c);
    hide ParseLine;
    HandleRequestLine(Took(c, line, more));
    RequestWords(c, m, path, more, Past(c, line, more));
  }
}
