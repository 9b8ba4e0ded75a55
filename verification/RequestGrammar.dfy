/** Which request lines are accepted, said of the text of the line alone. */
module RequestGrammar {
  import opened CStrings
  import opened HttpParser
  import opened HttpLines
  import opened Wrappers

  predicate Blanks(s: string) {
    s != "" && forall i :: 0 <= i < |s| ==> IsBlank(s[i])
  }

  predicate Unbroken(s: string) {
    forall i :: 0 <= i < |s| ==> NotBlank(s[i])
  }

  /** `first` is the first word of `line`, `rest` what follows the blanks behind it. */
  predicate FirstWord(line: string, first: string, gap: string, rest: string) {
    line == first + gap + rest && Unbroken(first) && Blanks(gap) && (rest != "" ==> NotBlank(rest[0]))
  }

  /** What follows the host, when the url starts with the scheme. */
  function BehindHost(url: string, scheme: string): Option<string> {
    if !HasPrefixNoCase(url, scheme) then Some(url)
    else if '/' in url[|scheme|..] then Some(url[First(url, |scheme|, SlashOrNul)..])
    else None
  }

  /** The path a url asks for. */
  function PathOf(url: string): Option<string> {
    var u := BehindHost(url, "http://");
    if u.None? then None else BehindHost(u.value, "https://")
  }

  predicate IsPath(path: Option<string>) {
    path.Some? && path.value != "" && path.value[0] == '/'
  }

  lemma HostSkipped(scheme: string, host: string, path: string)
    requires '/' !in host && NUL !in host && (path == "" || path[0] == '/')
    ensures BehindHost(scheme + (host + path), scheme) == if path == "" then None else Some(path)
  {
    var url := scheme + (host + path);
    assert url[..|scheme|] == scheme && url[|scheme|..] == host + path;
    forall k | |scheme| <= k < |scheme| + |host| ensures !SlashOrNul(url[k]) {
      assert url[k] == host[k - |scheme|] && host[k - |scheme|] in host;
    }
    if path == "" {
      assert host + path == host;
    } else {
      assert (host + path)[|host|] == '/';
      hide First;
      FirstIs(url, |scheme|, SlashOrNul, |scheme| + |host|);
      assert url[|scheme| + |host|..] == path;
    }
  }

  lemma OtherStart(url: string, scheme: string, i: nat)
    requires i < |url| && i < |scheme| && Lower(url[i]) != Lower(scheme[i])
    ensures BehindHost(url, scheme) == Some(url)
  {
    if |scheme| <= |url| {
      assert url[..|scheme|][i] == url[i];
    }
  }

  /** A url asks for itself when it is a path, for what follows the host when it is absolute,
      and for nothing when no '/' follows the host. */
  lemma PathOfUrl(host: string, path: string)
    requires '/' !in host && NUL !in host && (path == "" || path[0] == '/')
    ensures path != "" ==> PathOf(path) == Some(path)
    ensures PathOf("http://" + (host + path)) == if path == "" then None else Some(path)
    ensures PathOf("https://" + (host + path)) == if path == "" then None else Some(path)
  {
    hide BehindHost;
    HostSkipped("http://", host, path);
    HostSkipped("https://", host, path);
    OtherStart("https://" + (host + path), "http://", 4);
    if path != "" {
      OtherStart(path, "http://", 0);
      OtherStart(path, "https://", 0);
    }
  }

  ghost predicate GoodLine(line: string, m: string, url: string, version: string) {
    && (exists gap, gap2, rest :: FirstWord(line, m, gap, rest) && FirstWord(rest, url, gap2, version))
    && (EqNoCase(m, "GET") || EqNoCase(m, "POST"))
    && EqNoCase(version, VERSION)
    && IsPath(PathOf(url))
  }

  lemma CStrSuffix(b: seq<char>, b': seq<char>, i: nat)
    requires i <= |b| == |b'| && b[i..] == b'[i..]
    ensures CStr(b, i) == CStr(b', i)
  {
    var e := First(b, i, IsNul);
    forall k | i <= k < |b| ensures b[k] == b'[k] {
      assert b[i..][k - i] == b'[i..][k - i];
    }
    FirstIs(b', i, IsNul, e);
  }

  /** CutWord takes the first word off the C string, and fails when there is no blank. */
  lemma CutIsFirstWord(b: seq<char>, i: nat)
    requires LineReady(b, i)
    ensures var line := CStr(b, i);
            match CutWord(b, i)
            case None => Unbroken(line)
            case Some((b', next)) =>
              i + |CStr(b', i)| < next
              && exists gap :: FirstWord(line, CStr(b', i), gap, CStr(b', next)) && next == i + |CStr(b', i)| + |gap|
  {
    FirstInPrefix(b, |b| - 1, i, BlankOrNul);
    var e := First(b, i, BlankOrNul);
    if b[e] == NUL {
      FirstIs(b, i, IsNul, e);
    } else {
      var (b', next) := CutWord(b, i).value;
      BlanksCut(b, i);
      hide CutWord;
      CStrSuffix(b, b', next);
      Pieces(b, i, e, next);
    }
  }

  lemma Pieces(b: seq<char>, i: nat, e: nat, next: nat)
    requires i <= e < next <= |b|
    requires forall k :: i <= k < e ==> !BlankOrNul(b[k])
    requires forall k :: e <= k < next ==> IsBlank(b[k])
    requires next < |b| ==> NotBlank(b[next])
    ensures FirstWord(CStr(b, i), b[i..e], b[e..next], CStr(b, next))
  {
    var z := First(b, next, IsNul);
    assert forall k :: i <= k < next ==> !IsNul(b[k]);
    hide First;
    FirstIs(b, i, IsNul, z);
    ThreeSlices(b, i, e, next, z);
  }

  lemma ThreeSlices<T>(b: seq<T>, i: nat, e: nat, next: nat, z: nat)
    requires i <= e <= next <= z <= |b|
    ensures b[i..z] == b[i..e] + b[e..next] + b[next..z]
  {
  }

  /** The bytes from the end of the word to the next word are blanks. */
  lemma BlanksCut(b: seq<char>, i: nat)
    requires LineReady(b, i) && CutWord(b, i).Some?
    ensures var e, next := First(b, i, BlankOrNul), CutWord(b, i).value.1;
            i <= e < next && forall k :: e <= k < next ==> IsBlank(b[k])
  {
    var e := First(b, i, BlankOrNul);
    var b' := b[e := NUL];
    var next := First(b', e + 1, NotBlank);
    forall k | e <= k < next ensures IsBlank(b[k]) {
      if k > e {
        assert b'[k] == b[k] && !NotBlank(b'[k]);
      }
    }
  }

  /** There is only one way to take the first word off. */
  lemma FirstWordUnique(line: string, m: string, gap: string, rest: string, m': string, gap': string, rest': string)
    requires FirstWord(line, m, gap, rest) && FirstWord(line, m', gap', rest')
    ensures m == m' && gap == gap' && rest == rest'
  {
    SameWord(line, m, gap, rest, m', gap', rest');
    SameWord(line, m', gap', rest', m, gap, rest);
    assert gap + rest == line[|m|..] == gap' + rest';
    SameGap(gap, rest, gap', rest');
    SameGap(gap', rest', gap, rest);
    assert rest == (gap + rest)[|gap|..] && rest' == (gap' + rest')[|gap'|..];
    assert gap == (gap + rest)[..|gap|] && gap' == (gap' + rest')[..|gap'|];
  }

  lemma SameWord(line: string, m: string, gap: string, rest: string, m': string, gap': string, rest': string)
    requires FirstWord(line, m, gap, rest) && FirstWord(line, m', gap', rest')
    ensures |m'| <= |m| && (|m| == |m'| ==> m == m')
  {
    assert line[..|m|] == m && line[..|m'|] == m';
    assert line[|m|] == gap[0];
  }

  lemma SameGap(gap: string, rest: string, gap': string, rest': string)
    requires Blanks(gap) && Blanks(gap') && gap + rest == gap' + rest'
    requires (rest != "" ==> NotBlank(rest[0])) && (rest' != "" ==> NotBlank(rest'[0]))
    ensures |gap'| <= |gap|
  {
    var x := gap' + rest';
    assert forall k :: 0 <= k < |gap'| ==> x[k] == gap'[k];
    assert rest == x[|gap|..];
  }

  // --- the path ------------------------------------------------------------------------------

  /** Slash finds the first '/' of the C string, if it has one. */
  lemma SlashIsFirst(b: seq<char>, i: nat, skip: nat)
    requires i < |b| && b[|b| - 1] == NUL && skip <= |CStr(b, i)|
    ensures i + skip < |b|
    ensures var s := CStr(b, i);
            match Slash(b, i + skip)
            case None => '/' !in s[skip..]
            case Some(j) => '/' in s[skip..] && j == i + First(s, skip, SlashOrNul)
                            && j <= i + |s| && CStr(b, j) == s[First(s, skip, SlashOrNul)..]
  {
    hide First, CStr;
    var s := CStr(b, i);
    CStrInPrefix(b, |b|, i);
    CStrTail(b, i, i + skip);
    FirstSlash(b, i, skip);
    var j := First(b, i + skip, SlashOrNul);
    if b[j] == '/' {
      assert s[skip..][j - i - skip] == '/';
      CStrTail(b, i, j);
    }
  }

  /** Searching the buffer and searching the C string come to the same place. */
  lemma FirstSlash(b: seq<char>, i: nat, skip: nat)
    requires i < |b| && skip <= |CStr(b, i)| && i + |CStr(b, i)| < |b|
    ensures var s, j := CStr(b, i), First(b, i + skip, SlashOrNul);
            && i + skip <= j <= i + |s| && b[j] in {'/', NUL}
            && First(s, skip, SlashOrNul) == j - i
            && (b[j] == '/' <==> j < i + |s|) && (j == i + |s| ==> '/' !in s[skip..])
            && (j < i + |s| ==> s[j - i] == '/')
  {
    var s, j := CStr(b, i), First(b, i + skip, SlashOrNul);
    assert b[i + |s|] == NUL;
    assert j <= i + |s|;
    forall k | skip <= k < j - i ensures !SlashOrNul(s[k]) {
      CharsOf(b, i, k);
    }
    if j < i + |s| {
      CharsOf(b, i, j - i);
    }
    FirstIs(s, skip, SlashOrNul, j - i);
    assert forall k :: 0 <= k < |s[skip..]| ==> s[skip..][k] == s[skip + k];
  }

  /** Target's two steps, each of this shape. */
  function Behind(b: seq<char>, i: nat, scheme: string): (r: Option<nat>)
    requires i < |b| && b[|b| - 1] == NUL
    ensures r.Some? ==> i <= r.value < |b|
  {
    CStrInPrefix(b, |b|, i);
    if HasPrefixNoCase(CStr(b, i), scheme) then
      CStrTail(b, i, i + |scheme|); Slash(b, i + |scheme|)
    else Some(i)
  }

  lemma BehindHostFound(b: seq<char>, i: nat, scheme: string)
    requires i < |b| && b[|b| - 1] == NUL
    ensures match Behind(b, i, scheme)
            case None => BehindHost(CStr(b, i), scheme).None?
            case Some(t) => BehindHost(CStr(b, i), scheme) == Some(CStr(b, t))
  {
    hide First, CStr, Slash, EqNoCase;
    if HasPrefixNoCase(CStr(b, i), scheme) {
      SlashIsFirst(b, i, |scheme|);
    }
  }

  lemma TargetInTwoSteps(b: seq<char>, i: nat)
    requires i < |b| && b[|b| - 1] == NUL
    ensures var u := Behind(b, i, "http://");
            Target(b, i) == if u.None? then None else Behind(b, u.value, "https://")
  {
    hide CStr, HasPrefixNoCase, Slash, First;
  }

  lemma TargetIsPath(b: seq<char>, i: nat)
    requires i < |b| && b[|b| - 1] == NUL
    ensures match Target(b, i)
            case None => PathOf(CStr(b, i)).None?
            case Some(t) => PathOf(CStr(b, i)) == Some(CStr(b, t))
  {
    TargetInTwoSteps(b, i);
    BehindHostFound(b, i, "http://");
    var u := Behind(b, i, "http://");
    if u.Some? {
      BehindHostFound(b, u.value, "https://");
    }
    hide BehindHost, Behind, CStr, Target;
  }

  // --- the whole line ------------------------------------------------------------------------

  /** What an accepted line leaves in the parser. */
  ghost predicate Parsed(c: Conn, d: Conn, m: string, url: string) {
    && d.state == HEADER && d.rest == c.rest && d.startLine == c.startLine
    && (d.meth == if EqNoCase(m, "GET") then GET else POST)
    && d.cgi == (c.cgi || !EqNoCase(m, "GET"))
    && d.host == c.host && d.contentLength == c.contentLength && d.linger == c.linger && d.body == c.body
    && PathOf(url).Some?
    && d.url.Some? && d.url.value < |d.done| && CStr(d.done, d.url.value) == Page(PathOf(url).value)
  }

  lemma VersionExactly(c: Conn, u: nat, v: nat)
    requires LineReady(c.done, v) && u < v && u + |CStr(c.done, u)| < v
    ensures var (code, d) := ParseVersion(c, u, v);
            var path := PathOf(CStr(c.done, u));
            && (code == NO_REQUEST <==> EqNoCase(CStr(c.done, v), VERSION) && IsPath(path))
            && (code == NO_REQUEST ==>
                  && d.url.Some? && d.url.value < |d.done| && CStr(d.done, d.url.value) == Page(path.value)
                  && d == c.(done := d.done, version := Some(v), url := d.url, state := HEADER))
  {
    hide Target, PathOf, CStr, EqNoCase, Page, AppendJudge;
    var b := c.done;
    TargetIsPath(b, u);
    var t := Target(b, u);
    if t.Some? {
      CStrInPrefix(b, |b|, u);
      StartsWithSlash(b, t.value);
      if b[t.value] == '/' && EqNoCase(CStr(b, v), VERSION) {
        JudgeFits(b, u, t.value, v);
        JudgeShown(b, t.value);
      }
    }
  }

  lemma StartsWithSlash(b: seq<char>, t: nat)
    requires t < |b| && b[|b| - 1] == NUL
    ensures CStr(b, t) != "" && CStr(b, t)[0] == '/' <==> b[t] == '/'
  {
    if CStr(b, t) != "" {
      CharsOf(b, t, 0);
    }
    CStrInPrefix(b, |b|, t);
  }

  lemma UrlExactly(c: Conn, u: nat)
    requires LineReady(c.done, u)
    ensures var (code, d) := ParseUrl(c, u);
            match CutWord(c.done, u)
            case None => code == BAD_REQUEST
            case Some((b, v)) =>
              v < |b| && u < |b| &&
              var url, path := CStr(b, u), PathOf(CStr(b, u));
              && (code == NO_REQUEST <==> EqNoCase(CStr(b, v), VERSION) && IsPath(path))
              && (code == NO_REQUEST ==>
                    && d.url.Some? && d.url.value < |d.done| && CStr(d.done, d.url.value) == Page(path.value)
                    && d == c.(done := d.done, version := d.version, url := d.url, state := HEADER))
  {
    hide CutWord, PathOf, CStr, EqNoCase, Page, ParseVersion;
    var w := CutWord(c.done, u);
    if w.Some? {
      var (b, v) := w.value;
      CutLength(c.done, u);
      VersionExactly(c.(done := b, url := Some(u)), u, v);
    }
  }

  lemma NoWordIsBadRequest(c: Conn, text: nat)
    requires LineReady(c.done, text) && CutWord(c.done, text).None?
    ensures ParseRequestLine(c, text).0 == BAD_REQUEST
  {
    hide CutWord;
  }

  lemma UnbrokenHasNoFirstWord(line: string, m: string, gap: string, rest: string)
    requires Unbroken(line)
    ensures !FirstWord(line, m, gap, rest)
  {
    var x := m + gap + rest;
    assert gap != "" ==> x[|m|] == gap[0];
  }

  ghost predicate GoodWords(m: string, url: string, version: string) {
    (EqNoCase(m, "GET") || EqNoCase(m, "POST")) && EqNoCase(version, VERSION) && IsPath(PathOf(url))
  }

  /** The words of a line are the only ones it can be good with. */
  lemma OnlyTheseWords(line: string, m: string, gap: string, rest: string, url: string, gap2: string, version: string,
                       m': string, url': string, version': string)
    requires FirstWord(line, m, gap, rest) && FirstWord(rest, url, gap2, version)
    ensures GoodLine(line, m', url', version')
            <==> m' == m && url' == url && version' == version && GoodWords(m, url, version)
  {
    hide FirstWord, EqNoCase, IsPath, PathOf;
    if GoodLine(line, m', url', version') {
      var g, g2, r :| FirstWord(line, m', g, r) && FirstWord(r, url', g2, version');
      FirstWordUnique(line, m, gap, rest, m', g, r);
      FirstWordUnique(rest, url, gap2, version, url', g2, version');
    }
  }

  lemma OneWordIsBad(line: string, m: string, gap: string, rest: string, m': string, url': string, version': string)
    requires FirstWord(line, m, gap, rest) && Unbroken(rest)
    ensures !GoodLine(line, m', url', version')
  {
    if GoodLine(line, m', url', version') {
      var g, g2, r :| FirstWord(line, m', g, r) && FirstWord(r, url', g2, version');
      FirstWordUnique(line, m, gap, rest, m', g, r);
      UnbrokenHasNoFirstWord(rest, url', g2, version');
    }
  }

  lemma NoWordIsBad(line: string, m': string, url': string, version': string)
    requires Unbroken(line)
    ensures !GoodLine(line, m', url', version')
  {
    if GoodLine(line, m', url', version') {
      var g, g2, r :| FirstWord(line, m', g, r) && FirstWord(r, url', g2, version');
      UnbrokenHasNoFirstWord(line, m', g, r);
    }
  }

  lemma NoWordExactly(c: Conn, text: nat)
    requires LineReady(c.done, text) && CutWord(c.done, text).None?
    ensures ParseRequestLine(c, text).0 == BAD_REQUEST
    ensures forall m, url, version :: !GoodLine(CStr(c.done, text), m, url, version)
  {
    NoWordIsBadRequest(c, text);
    CutIsFirstWord(c.done, text);
    hide *;
    forall m, url, version ensures !GoodLine(CStr(c.done, text), m, url, version) {
      NoWordIsBad(CStr(c.done, text), m, url, version);
    }
  }

  lemma TwoWordsExactly(c: Conn, text: nat, b: seq<char>, u: nat)
    requires LineReady(c.done, text) && CutWord(c.done, text) == Some((b, u)) && text < |b| && LineReady(b, u)
    ensures var (code, d) := ParseRequestLine(c, text);
            && (code == NO_REQUEST <==> exists m, url, version :: GoodLine(CStr(c.done, text), m, url, version))
            && forall m, url, version :: GoodLine(CStr(c.done, text), m, url, version) ==> Parsed(c, d, m, url)
  {
    var line, m, rest := CStr(c.done, text), CStr(b, text), CStr(b, u);
    var (code, d) := ParseRequestLine(c, text);
    FirstWordTaken(c, text, b, u);
    CutIsFirstWord(c.done, text);
    CutIsFirstWord(b, u);
    var meth := if EqNoCase(m, "GET") then GET else POST;
    var c2 := c.(done := b, meth := meth, cgi := c.cgi || !EqNoCase(m, "GET"));
    UrlExactly(c2, u);
    hide CutWord, CStr, EqNoCase, ParseUrl, ParseRequestLine, GoodLine, FirstWord, Unbroken, PathOf, IsPath, Page;
    var gap :| FirstWord(line, m, gap, rest);
    match CutWord(b, u) {
      case None =>
        forall m', url', version' ensures !GoodLine(line, m', url', version') {
          OneWordIsBad(line, m, gap, rest, m', url', version');
        }
      case Some((b2, v)) =>
        var url, version := CStr(b2, u), CStr(b2, v);
        var gap2 :| FirstWord(rest, url, gap2, version);
        forall m', url', version'
          ensures GoodLine(line, m', url', version')
                  <==> m' == m && url' == url && version' == version && GoodWords(m, url, version)
        {
          OnlyTheseWords(line, m, gap, rest, url, gap2, version, m', url', version');
        }
        assert code == NO_REQUEST <==> GoodLine(line, m, url, version);
        PathThere(url);
    }
  }

  lemma PathThere(url: string)
    ensures IsPath(PathOf(url)) ==> PathOf(url).Some?
  {
  }

  /** A line is accepted exactly when it is a method, a url and the version, separated by
      blanks, and the url has a path; then the parser holds the method and the page of
      the path, and no field has been touched that the headers fill. */
  lemma RequestLineExactly(c: Conn, text: nat)
    requires LineReady(c.done, text)
    ensures var (code, d) := ParseRequestLine(c, text);
            && (code == NO_REQUEST <==> exists m, url, version :: GoodLine(CStr(c.done, text), m, url, version))
            && forall m, url, version :: GoodLine(CStr(c.done, text), m, url, version) ==> Parsed(c, d, m, url)
  {
    var w := CutWord(c.done, text);
    hide *;
    match w {
      case None => NoWordExactly(c, text);
      case Some((b, u)) =>
        FirstWordTaken(c, text, b, u);
        TwoWordsExactly(c, text, b, u);
    }
  }

  // --- header lines ----------------------------------------------------------------------------

  /** The text without its leading blanks. */
  function Trimmed(s: string): string {
    if s != "" && IsBlank(s[0]) then Trimmed(s[1..]) else s
  }

  lemma {:induction false} ValueTrimmed(b: seq<char>, i: nat)
    requires i < |b| && b[|b| - 1] == NUL
    ensures var v := First(b, i, NotBlank);
            v < |b| && CStr(b, v) == Trimmed(CStr(b, i))
    decreases |b| - i
  {
    CStrInPrefix(b, |b|, i);
    if IsBlank(b[i]) {
      ValueTrimmed(b, i + 1);
      assert CStr(b, i) == [b[i]] + CStr(b, i + 1);
    } else if CStr(b, i) != "" {
      CharsOf(b, i, 0);
    }
  }

  /** The first of the three fields that the line names, and its value. */
  datatype Field = Connection(value: string) | Length(value: string) | HostField(value: string) | Unknown

  function FieldOf(line: string): Field {
    if HasPrefixNoCase(line, CONNECTION) then Connection(Trimmed(line[|CONNECTION|..]))
    else if HasPrefixNoCase(line, CONTENT_LENGTH) then Length(Trimmed(line[|CONTENT_LENGTH|..]))
    else if HasPrefixNoCase(line, HOST) then HostField(Trimmed(line[|HOST|..]))
    else Unknown
  }

  lemma NamesLength()
    ensures |CONNECTION| == 11 && |CONTENT_LENGTH| == 15 && |HOST| == 5
  {
  }

  lemma NamedField(b: seq<char>, i: nat, name: string)
    requires i < |b| && b[|b| - 1] == NUL && HasPrefixNoCase(CStr(b, i), name)
    ensures i + |name| < |b|
    ensures var v := First(b, i + |name|, NotBlank);
            v < |b| && CStr(b, v) == Trimmed(CStr(b, i)[|name|..])
  {
    hide First, CStr, HasPrefixNoCase, EqNoCase, Trimmed;
    PrefixFits(CStr(b, i), name);
    CStrInPrefix(b, |b|, i);
    CStrTail(b, i, i + |name|);
    ValueTrimmed(b, i + |name|);
  }

  /** `d` is `c` with the field set to its value, and nothing else changed. */
  ghost predicate Sets(c: Conn, d: Conn, f: Field) {
    match f
    case Connection(value) => d == c.(linger := c.linger || EqNoCase(value, KEEP_ALIVE))
    case Length(value) => d == c.(contentLength := AtolToInt(value))
    case HostField(value) =>
      && d == c.(host := d.host) && d.host.Some? && d.host.value < |d.done|
      && CStr(d.done, d.host.value) == value
    case Unknown => d == c
  }

  lemma SetsConnection(c: Conn, text: nat, line: string)
    requires LineReady(c.done, text) && line == CStr(c.done, text) != "" && HasPrefixNoCase(line, CONNECTION)
    ensures var (code, d) := ParseHeaders(c, text); code == NO_REQUEST && Sets(c, d, FieldOf(line))
  {
    hide CStr, HasPrefixNoCase, EqNoCase, AtolToInt, Trimmed, First, ParseHeaders;
    FieldTaken(c, text);
    NamesLength();
    hide CONNECTION, CONTENT_LENGTH, HOST, KEEP_ALIVE;
    NamedField(c.done, text, CONNECTION);
  }

  lemma SetsLength(c: Conn, text: nat, line: string)
    requires LineReady(c.done, text) && line == CStr(c.done, text) != ""
    requires !HasPrefixNoCase(line, CONNECTION) && HasPrefixNoCase(line, CONTENT_LENGTH)
    ensures var (code, d) := ParseHeaders(c, text); code == NO_REQUEST && Sets(c, d, FieldOf(line))
  {
    hide CStr, HasPrefixNoCase, EqNoCase, AtolToInt, Trimmed, First, ParseHeaders;
    FieldTaken(c, text);
    NamesLength();
    hide CONNECTION, CONTENT_LENGTH, HOST, KEEP_ALIVE;
    NamedField(c.done, text, CONTENT_LENGTH);
  }

  lemma SetsHost(c: Conn, text: nat, line: string)
    requires LineReady(c.done, text) && line == CStr(c.done, text) != ""
    requires !HasPrefixNoCase(line, CONNECTION) && !HasPrefixNoCase(line, CONTENT_LENGTH)
    requires HasPrefixNoCase(line, HOST)
    ensures var (code, d) := ParseHeaders(c, text); code == NO_REQUEST && Sets(c, d, FieldOf(line))
  {
    hide CStr, HasPrefixNoCase, EqNoCase, AtolToInt, Trimmed, First, ParseHeaders;
    FieldTaken(c, text);
    NamesLength();
    hide CONNECTION, CONTENT_LENGTH, HOST, KEEP_ALIVE;
    NamedField(c.done, text, HOST);
  }

  lemma SetsNothing(c: Conn, text: nat, line: string)
    requires LineReady(c.done, text) && line == CStr(c.done, text) != ""
    requires !HasPrefixNoCase(line, CONNECTION) && !HasPrefixNoCase(line, CONTENT_LENGTH)
    requires !HasPrefixNoCase(line, HOST)
    ensures var (code, d) := ParseHeaders(c, text); code == NO_REQUEST && Sets(c, d, FieldOf(line))
  {
    hide CStr, HasPrefixNoCase, EqNoCase, AtolToInt, Trimmed, First, ParseHeaders;
    FieldTaken(c, text);
    hide CONNECTION, CONTENT_LENGTH, HOST, KEEP_ALIVE;
  }

  /** What a header line that is not blank does: it sets what its field is for, to its
      value, and nothing else. */
  lemma HeaderLineExactly(c: Conn, text: nat)
    requires LineReady(c.done, text) && CStr(c.done, text) != ""
    ensures var (code, d) := ParseHeaders(c, text); code == NO_REQUEST && Sets(c, d, FieldOf(CStr(c.done, text)))
  {
    hide *;
    var line := CStr(c.done, text);
    if HasPrefixNoCase(line, CONNECTION) {
      SetsConnection(c, text, line);
    } else if HasPrefixNoCase(line, CONTENT_LENGTH) {
      SetsLength(c, text, line);
    } else if HasPrefixNoCase(line, HOST) {
      SetsHost(c, text, line);
    } else {
      SetsNothing(c, text, line);
    }
  }
}
