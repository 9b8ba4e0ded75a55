/** The reading half of http_conn, in place on the fixed read buffer. */
module HttpConn {
  import opened CStrings
  import opened HttpParser
  import opened Wrappers

  lemma Slide(buf: seq<char>, from: nat, k: nat, upto: nat)
    requires from + k <= upto <= |buf|
    ensures buf[..from] + buf[from..upto][..k] == buf[..from + k]
    ensures buf[from..upto][k..] == buf[from + k..upto]
  {
  }

  /** `t` written at i into `a` gives `b`. */
  lemma Pasted(a: seq<char>, b: seq<char>, i: nat, t: seq<char>, n: nat, m: nat)
    requires i + |t| <= n <= m <= |a| == |b|
    requires forall k :: 0 <= k < |a| ==> b[k] == if i <= k < i + |t| then t[k - i] else a[k]
    ensures b[..n] == a[..n][..i] + t + a[..n][i + |t|..]
    ensures b[n..m] == a[n..m]
  {
    var c := a[..n];
    assert b[..i] == c[..i];
    assert b[i..i + |t|] == t;
    assert b[i + |t|..n] == c[i + |t|..];
    assert b[..n] == b[..i] + b[i..i + |t|] + b[i + |t|..n];
  }

  class RequestReader {
    const m_read_buf: array<char>
    var m_read_idx: int
    var m_checked_idx: nat
    var m_start_line: nat
    var m_check_state: CheckState
    var m_method: Method
    var m_url: Option<nat>
    var m_version: Option<nat>
    var m_host: Option<nat>
    var m_content_length: int
    var m_linger: bool
    var cgi: bool
    var m_string: Option<nat>

    /** The indices are ordered and the bytes not read yet are NUL. */
    ghost predicate Valid()
      reads this`m_start_line, this`m_checked_idx, this`m_read_idx, m_read_buf
    {
      && m_read_buf.Length == READ_BUFFER_SIZE
      && m_start_line <= m_checked_idx <= m_read_idx <= READ_BUFFER_SIZE
      && forall i :: m_read_idx <= i < READ_BUFFER_SIZE ==> m_read_buf[i] == NUL
    }

    ghost function Done(): (b: seq<char>)
      reads this`m_start_line, this`m_checked_idx, this`m_read_idx, m_read_buf
      requires Valid()
      ensures |b| == m_checked_idx
    {
      m_read_buf[..m_checked_idx]
    }

    ghost function State(): (c: Conn)
      reads this, m_read_buf
      requires Valid()
      ensures Bounds(c)
    {
      Conn(Done(), m_read_buf[m_checked_idx..m_read_idx], m_start_line, m_check_state,
           m_method, m_url, m_version, m_host, m_content_length, m_linger, cgi, m_string)
    }

    constructor ()
      ensures Valid() && State() == Fresh() && fresh(m_read_buf)
    {
      m_read_buf := new char[READ_BUFFER_SIZE](_ => NUL);
      m_read_idx, m_checked_idx, m_start_line, m_check_state := 0, 0, 0, REQUESTLINE;
      m_method, m_url, m_version, m_host := GET, None, None, None;
      m_content_length, m_linger, cgi, m_string := 0, false, false, None;
    }

    /** The buffer is the memory that the functions on values speak of. */
    lemma BufferIsMemory()
      requires Valid()
      ensures m_read_buf[..] == Memory(State())
    {
      assert m_read_buf[..] == m_read_buf[..m_checked_idx] + m_read_buf[m_checked_idx..m_read_idx]
                               + m_read_buf[m_read_idx..];
    }

    /** recv of the bytes `b` behind m_read_idx. */
    method recv(b: seq<char>)
      requires Valid() && m_read_idx + |b| <= READ_BUFFER_SIZE
      modifies this`m_read_idx, m_read_buf
      ensures Valid() && State() == Receive(old(State()), b) && m_read_idx == old(m_read_idx) + |b|
    {
      forall i | 0 <= i < |b| {
        m_read_buf[m_read_idx + i] := b[i];
      }
      m_read_idx := m_read_idx + |b|;
      assert m_read_buf[m_checked_idx..m_read_idx] == old(m_read_buf[m_checked_idx..m_read_idx]) + b;
    }

    /** Edge-triggered: recv until there is nothing more. */
    method read_all(results: seq<Recv>) returns (ok: bool)
      requires Valid() && AllFitting(results, READ_BUFFER_SIZE - m_read_idx)
      modifies this`m_read_idx, m_read_buf
      ensures Valid() && (ok, State()) == ReadAll(old(State()), results)
    {
      hide Receive;
      var i := 0;
      while i < |results|
        invariant 0 <= i <= |results| && Valid() && AllFitting(results[i..], READ_BUFFER_SIZE - m_read_idx)
        invariant ReadAll(State(), results[i..]) == ReadAll(old(State()), results)
      {
        if m_read_idx >= READ_BUFFER_SIZE {
          return false;
        }
        assert results[i..][0] == results[i] && results[i..][1..] == results[i + 1..];
        match results[i] {
          case Again => return true;
          case Got(b) => recv(b);
          case _ => return false;
        }
        i := i + 1;
      }
      ok := m_read_idx < READ_BUFFER_SIZE;
    }

    /** read_once.  Level-triggered, recv's -1 goes into m_read_idx before it is looked
        at; the connection is given up then. */
    method read_once(et: bool, results: seq<Recv>) returns (ok: bool)
      requires Valid() && AllFitting(results, READ_BUFFER_SIZE - m_read_idx) && results != []
      modifies this`m_read_idx, m_read_buf
      ensures old(m_read_idx) == READ_BUFFER_SIZE ==> !ok && Valid() && State() == old(State())
      ensures et ==> Valid() && (ok, State()) == ReadAll(old(State()), results)
      ensures !et && old(m_read_idx) < READ_BUFFER_SIZE ==>
                && (ok <==> results[0].Got?)
                && (ok ==> Valid() && State() == Receive(old(State()), results[0].bytes))
                && (!ok ==> m_read_buf[..] == old(m_read_buf[..])
                            && m_read_idx == old(m_read_idx) - if results[0].Closed? then 0 else 1)
    {
      if m_read_idx >= READ_BUFFER_SIZE {
        return false;
      }
      if et {
        ok := read_all(results);
        return;
      }
      match results[0] {
        case Got(b) =>
          recv(b);
          return true;
        case Closed =>
          return false;
        case _ =>
          m_read_idx := m_read_idx - 1;
          return false;
      }
    }

    /** NUL over the CR LF at m_checked_idx. */
    method erase_pair()
      requires Valid() && m_checked_idx + 1 < m_read_idx
      modifies this`m_checked_idx, m_read_buf
      ensures Valid()
      ensures State() == old(State()).(done := old(State()).done + [NUL, NUL], rest := old(State()).rest[2..])
    {
      ghost var c := State();
      m_read_buf[m_checked_idx] := NUL;
      m_checked_idx := m_checked_idx + 1;
      m_read_buf[m_checked_idx] := NUL;
      m_checked_idx := m_checked_idx + 1;
      assert m_read_buf[..m_checked_idx] == c.done + [NUL, NUL];
      assert m_read_buf[m_checked_idx..m_read_idx] == c.rest[2..];
    }

    /** NUL over an LF at m_checked_idx and the byte before it. */
    method erase_across()
      requires Valid() && 0 < m_checked_idx < m_read_idx
      modifies this`m_checked_idx, m_read_buf
      ensures Valid()
      ensures var done := old(State()).done;
              State() == old(State()).(done := done[|done| - 1 := NUL] + [NUL], rest := old(State()).rest[1..])
    {
      ghost var c := State();
      m_read_buf[m_checked_idx - 1] := NUL;
      m_read_buf[m_checked_idx] := NUL;
      m_checked_idx := m_checked_idx + 1;
      assert m_read_buf[..m_checked_idx] == c.done[|c.done| - 1 := NUL] + [NUL];
      assert m_read_buf[m_checked_idx..m_read_idx] == c.rest[1..];
    }

    /** The loop of parse_line: on to the next CR or LF. */
    method scan_line()
      requires Valid()
      modifies this`m_checked_idx
      ensures Valid() && State() == Skip(old(State()), First(old(State()).rest, 0, CrOrLf))
    {
      hide First;
      ghost var c, from := State(), m_checked_idx;
      while m_checked_idx < m_read_idx && !CrOrLf(m_read_buf[m_checked_idx])
        invariant from <= m_checked_idx <= m_read_idx
        invariant forall i :: 0 <= i < m_checked_idx - from ==> !CrOrLf(c.rest[i])
      {
        m_checked_idx := m_checked_idx + 1;
      }
      ghost var k := m_checked_idx - from;
      FirstIs(c.rest, 0, CrOrLf, k);
      Slide(m_read_buf[..], from, k, m_read_idx);
    }

    /** parse_line once it stands on a CR, an LF or the end of the bytes read. */
    method end_line() returns (status: LineStatus)
      requires Valid()
      modifies this`m_checked_idx, m_read_buf
      ensures Valid() && (status, State()) == LineAt(old(State()))
    {
      if m_checked_idx == m_read_idx {
        return LINE_OPEN;
      }
      if m_read_buf[m_checked_idx] == CR {
        if m_checked_idx + 1 == m_read_idx {
          return LINE_OPEN;
        } else if m_read_buf[m_checked_idx + 1] == LF {
          erase_pair();
          return LINE_OK;
        }
        return LINE_BAD;
      }
      if m_checked_idx > 1 && m_read_buf[m_checked_idx - 1] == CR {
        erase_across();
        return LINE_OK;
      }
      return LINE_BAD;
    }

    method parse_line() returns (status: LineStatus)
      requires Valid()
      modifies this`m_checked_idx, m_read_buf
      ensures Valid() && (status, State()) == ParseLine(old(State()))
    {
      scan_line();
      hide LineAt;
      status := end_line();
    }

    // The C library on m_read_buf: a search runs to the end of the buffer, but inside
    // a consumed line it stops at the line's own NUL.

    /** strpbrk, strspn and strchr as offsets. */
    function find(i: nat, p: char -> bool): (j: nat)
      reads this`m_start_line, this`m_checked_idx, this`m_read_idx, m_read_buf
      requires Valid() && i < m_checked_idx && p(m_read_buf[m_checked_idx - 1])
      ensures j == First(Done(), i, p) < m_checked_idx
    {
      FirstInPrefix(m_read_buf[..], m_checked_idx, i, p);
      assert m_read_buf[..m_checked_idx] == m_read_buf[..][..m_checked_idx];
      First(m_read_buf[..], i, p)
    }

    function c_str(i: nat): (s: string)
      reads this`m_start_line, this`m_checked_idx, this`m_read_idx, m_read_buf
      requires Valid() && i < m_checked_idx && m_read_buf[m_checked_idx - 1] == NUL
      ensures s == CStr(Done(), i)
    {
      CStrInPrefix(m_read_buf[..], m_checked_idx, i);
      assert m_read_buf[..m_checked_idx] == m_read_buf[..][..m_checked_idx];
      CStr(m_read_buf[..], i)
    }

    /** The C string behind the blanks at `i`. */
    function value_at(i: nat): (s: string)
      reads this`m_start_line, this`m_checked_idx, this`m_read_idx, m_read_buf
      requires Valid() && i < m_checked_idx && m_read_buf[m_checked_idx - 1] == NUL
      ensures s == CStr(Done(), First(Done(), i, NotBlank))
    {
      c_str(find(i, NotBlank))
    }

    function strchr_slash(i: nat): (r: Option<nat>)
      reads this`m_start_line, this`m_checked_idx, this`m_read_idx, m_read_buf
      requires Valid() && i < m_checked_idx && m_read_buf[m_checked_idx - 1] == NUL
      ensures r == Slash(Done(), i)
    {
      var j := find(i, SlashOrNul);
      if m_read_buf[j] == '/' then Some(j) else None
    }

    /** *p = NUL in the consumed part. */
    method erase(i: nat)
      requires Valid() && i < m_checked_idx
      modifies m_read_buf
      ensures Valid() && State() == old(State()).(done := old(Done())[i := NUL])
    {
      ghost var c := State();
      m_read_buf[i] := NUL;
      assert Done() == c.done[i := NUL] && State().rest == c.rest;
    }

    /** Cut the word at `i` off: where its NUL went and where the next word starts. */
    method cut_word(i: nat) returns (end: nat, next: Option<nat>)
      requires Valid() && LineReady(Done(), i)
      modifies m_read_buf
      ensures Valid()
      ensures var c, w := old(State()), CutWord(old(Done()), i);
              if w.None? then next == None && State() == c
              else
                && next == Some(w.value.1) && State() == c.(done := w.value.0)
                && end == i + |CStr(w.value.0, i)|
    {
      hide First, CutWord, CStr;
      ghost var b := Done();
      CutAt(b, i);
      hide LineReady;
      end := find(i, BlankOrNul);
      assert m_read_buf[end] == b[end];
      if m_read_buf[end] == NUL {
        return end, None;
      }
      erase(end);
      next := Some(find(end + 1, NotBlank));
    }

    /** strcpy(m_read_buf + i, t) inside the consumed part. */
    method put(i: nat, t: string)
      requires Valid() && i + |t| < m_checked_idx
      modifies m_read_buf
      ensures Valid()
      ensures var b := old(Done());
              State() == old(State()).(done := b[..i] + (t + [NUL]) + b[i + |t| + 1..])
    {
      ghost var a := m_read_buf[..];
      forall k | 0 <= k <= |t| {
        m_read_buf[i + k] := (t + [NUL])[k];
      }
      Pasted(a, m_read_buf[..], i, t + [NUL], m_checked_idx, m_read_idx);
    }

    /** The length check and strcat(m_url, "judge.html"). */
    method append_judge(u: nat)
      requires Valid() && u < m_checked_idx && m_read_buf[m_checked_idx - 1] == NUL
      requires |CStr(Done(), u)| == 1 ==> u + 12 <= m_checked_idx
      modifies m_read_buf
      ensures Valid() && State() == old(State()).(done := AppendJudge(old(Done()), u))
    {
      var length := |c_str(u)|;
      if length == 1 {
        put(u + 1, JUDGE);
      }
    }

    /** m_url past "http://host" or "https://host"; a missing '/' is NULL. */
    method skip_host(u: nat) returns (url: Option<nat>)
      requires Valid() && u < m_checked_idx && m_read_buf[m_checked_idx - 1] == NUL
      ensures url == Target(Done(), u)
    {
      hide First, CStr, EqNoCase, Slash;
      StrInside(Done(), u);
      url := Some(u);
      if HasPrefixNoCase(c_str(u), "http://") {
        url := strchr_slash(u + 7);
      }
      if url.Some? {
        StrInside(Done(), url.value);
        if HasPrefixNoCase(c_str(url.value), "https://") {
          url := strchr_slash(url.value + 8);
        }
      }
    }

    /** Check the path at m_url, name the page of "/", and go on to the headers. */
    method take_path() returns (code: HttpCode)
      requires Valid() && m_checked_idx > 0 && m_read_buf[m_checked_idx - 1] == NUL
      requires m_url.Some? ==>
                 && m_url.value < m_checked_idx
                 && (|CStr(Done(), m_url.value)| == 1 ==> m_url.value + 12 <= m_checked_idx)
      modifies this`m_check_state, m_read_buf
      ensures Valid()
      ensures var c := old(State());
              (code, State()) == if m_url.None? || c.done[m_url.value] != '/' then (BAD_REQUEST, c)
                                 else (NO_REQUEST, c.(done := AppendJudge(c.done, m_url.value), state := HEADER))
    {
      if m_url.None? || m_read_buf[m_url.value] != '/' {
        return BAD_REQUEST;
      }
      hide AppendJudge, CStr;
      append_judge(m_url.value);
      m_check_state := HEADER;
      return NO_REQUEST;
    }

    method parse_version(u: nat, v: nat) returns (code: HttpCode)
      requires Valid() && LineReady(Done(), v) && u < v && u + |CStr(Done(), u)| < v
      modifies this`m_url, this`m_version, this`m_check_state, m_read_buf
      ensures Valid() && (code, State()) == ParseVersion(old(State()), u, v)
    {
      hide EqNoCase, Slash, Target, CStr, AppendJudge, First;
      m_version := Some(v);
      if !EqNoCase(c_str(v), VERSION) {
        return BAD_REQUEST;
      }
      PathRoom(Done(), u, v);
      m_url := skip_host(u);
      code := take_path();
    }

    method parse_url(u: nat) returns (code: HttpCode)
      requires Valid() && LineReady(Done(), u)
      modifies this`m_url, this`m_version, this`m_check_state, m_read_buf
      ensures Valid() && (code, State()) == ParseUrl(old(State()), u)
    {
      hide CutWord, ParseVersion, CStr;
      m_url := Some(u);
      var _, v := cut_word(u);
      if v.None? {
        m_version := None;
        return BAD_REQUEST;
      }
      code := parse_version(u, v.value);
    }

    /** The method named by the first word, which ends at `end`. */
    method read_method(text: nat, end: nat) returns (known: bool)
      requires Valid() && LineReady(Done(), text) && end == text + |CStr(Done(), text)|
      modifies this`m_url, this`m_method, this`cgi
      ensures Valid()
      ensures var c, m := old(State()), CStr(Done(), text);
              && State() == (if EqNoCase(m, "GET") then c.(meth := GET)
                             else if EqNoCase(m, "POST") then c.(meth := POST, cgi := true)
                             else c.(url := Some(end + 1)))
              && (known <==> EqNoCase(m, "GET") || EqNoCase(m, "POST"))
    {
      hide CStr, EqNoCase;
      var meth := c_str(text);
      known := true;
      if EqNoCase(meth, "GET") {
        m_method := GET;
      } else if EqNoCase(meth, "POST") {
        m_method := POST;
        cgi := true;
      } else {
        m_url := Some(end + 1);
        known := false;
      }
    }

    method parse_request_line(text: nat) returns (code: HttpCode)
      requires Valid() && LineReady(Done(), text)
      modifies this`m_url, this`m_version, this`m_check_state, this`m_method, this`cgi, m_read_buf
      ensures Valid() && (code, State()) == ParseRequestLine(old(State()), text)
    {
      hide CutWord, ParseUrl, CStr, EqNoCase, First, Valid;
      ghost var c := State();
      var end, u := cut_word(text);
      if u.None? {
        m_url := None;
        return BAD_REQUEST;
      }
      ghost var b := Done();
      assert LineReady(b, text);
      hide LineReady, ParseRequestLine;
      FirstWordTaken(c, text, b, u.value);
      var known := read_method(text, end);
      if !known {
        return BAD_REQUEST;
      }
      assert Done() == b;
      code := parse_url(u.value);
    }

    method parse_headers(text: nat) returns (code: HttpCode)
      requires Valid() && LineReady(Done(), text)
      modifies this`m_check_state, this`m_linger, this`m_content_length, this`m_host
      ensures Valid() && (code, State()) == ParseHeaders(old(State()), text)
    {
      hide CStr, SetField;
      var t := c_str(text);
      if t == "" {
        if m_content_length != 0 {
          m_check_state := CONTENT;
          return NO_REQUEST;
        }
        return GET_REQUEST;
      }
      set_field(text, t);
      return NO_REQUEST;
    }

    /** The three fields parse_headers knows. */
    method set_field(text: nat, t: string)
      requires Valid() && LineReady(Done(), text) && t == CStr(Done(), text)
      modifies this`m_linger, this`m_content_length, this`m_host
      ensures Valid() && State() == SetField(old(State()), text, t)
    {
      hide CStr, EqNoCase, AtolToInt, First, HasPrefixNoCase, CONNECTION, CONTENT_LENGTH, HOST;
      StrInside(Done(), text);
      FieldsFit(t);
      if HasPrefixNoCase(t, CONNECTION) {
        if EqNoCase(value_at(text + 11), KEEP_ALIVE) {
          m_linger := true;
        }
      } else if HasPrefixNoCase(t, CONTENT_LENGTH) {
        m_content_length := AtolToInt(value_at(text + 15));
      } else if HasPrefixNoCase(t, HOST) {
        m_host := Some(find(text + 5, NotBlank));
      }
    }

    method parse_content(text: nat) returns (code: HttpCode)
      requires Valid() && text <= m_checked_idx
      modifies this`m_string, m_read_buf
      ensures Valid() && (code, State()) == ParseContent(old(State()), text)
      ensures code == GET_REQUEST <==>
                && m_read_idx >= m_content_length + m_checked_idx && m_content_length + m_checked_idx <= INT_MAX
                && 0 <= text + m_content_length < READ_BUFFER_SIZE
      ensures code == GET_REQUEST ==>
                && m_string == Some(text)
                && m_read_buf[..] == old(m_read_buf[..])[text + m_content_length := NUL]
      ensures code != GET_REQUEST ==> m_string == old(m_string) && m_read_buf[..] == old(m_read_buf[..])
    {
      var end := text + m_content_length;
      if m_content_length + m_checked_idx > INT_MAX {
        return OUT_OF_BOUNDS;
      }
      if m_read_idx >= m_content_length + m_checked_idx {
        if end < 0 || end >= READ_BUFFER_SIZE {
          return OUT_OF_BOUNDS;
        }
        ghost var c := State();
        m_read_buf[end] := NUL;
        m_string := Some(text);
        assert State().done == PutNul(c, end).done && State().rest == PutNul(c, end).rest;
        return GET_REQUEST;
      }
      return NO_REQUEST;
    }

    /** The switch of process_read. */
    method handle_line() returns (code: HttpCode)
      requires Valid() && (m_check_state != CONTENT ==> LineReady(Done(), m_start_line))
      modifies this, m_read_buf
      ensures Valid() && (code, State()) == HandleLine(old(State()))
    {
      hide ParseRequestLine, ParseHeaders, ParseContent;
      var text := m_start_line;
      m_start_line := m_checked_idx;
      match m_check_state {
        case REQUESTLINE => code := parse_request_line(text);
        case HEADER => code := parse_headers(text);
        case CONTENT => code := parse_content(text);
      }
    }

    /** GET_REQUEST is where the code calls do_request. */
    method process_read() returns (code: HttpCode)
      requires Valid() && Inv(State())
      modifies this, m_read_buf
      ensures Valid() && (code, State()) == ProcessRead(old(State()))
    {
      hide ParseLine, HandleLine;
      var line_status := LINE_OK;
      while true
        invariant Valid() && Inv(State())
        invariant Loop(State(), line_status) == ProcessRead(old(State()))
        decreases m_read_idx - m_checked_idx, if m_check_state == CONTENT && line_status == LINE_OK then 1 else 0
      {
        if !(m_check_state == CONTENT && line_status == LINE_OK) {
          ghost var c := State();
          line_status := parse_line();
          if line_status != LINE_OK {
            return NO_REQUEST;
          }
          LineEndsAtPair(c);
        }
        var state := m_check_state;
        code := handle_line();
        if code != NO_REQUEST {
          return code;
        }
        if state == CONTENT {
          line_status := LINE_OPEN;
        }
      }
    }
  }

  lemma StrInside(b: seq<char>, i: nat)
    requires i < |b| && b[|b| - 1] == NUL
    ensures i + |CStr(b, i)| < |b|
  {
    assert b[..|b|] == b;
    CStrInPrefix(b, |b|, i);
  }

  lemma FieldsFit(t: string)
    ensures HasPrefixNoCase(t, CONNECTION) ==> 11 <= |t|
    ensures HasPrefixNoCase(t, CONTENT_LENGTH) ==> 15 <= |t|
    ensures HasPrefixNoCase(t, HOST) ==> 5 <= |t|
  {
  }

  lemma CutAt(b: seq<char>, i: nat)
    requires LineReady(b, i)
    ensures var e := First(b, i, BlankOrNul);
            && i <= e <= |b| - 2 && b[|b| - 1] == NUL
            && if b[e] == NUL then CutWord(b, i) == None
               else
                 && e + 2 < |b|
                 && CutWord(b, i) == Some((b[e := NUL], First(b[e := NUL], e + 1, NotBlank)))
                 && e == i + |CStr(b[e := NUL], i)|
  {
    FirstInPrefix(b, |b| - 1, i, BlankOrNul);
  }
}
