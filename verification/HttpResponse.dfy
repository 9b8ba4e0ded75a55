/** The answer of http_conn: the text process_write prints, in the write buffer, and
    the write loop that sends it. */
module HttpResponse {
  import opened CStrings
  import opened HttpParser
  import opened HttpChunking
  import opened HttpLines
  import opened ResponseDrain
  import opened Wrappers

  const WRITE_BUFFER_SIZE: nat := 1024

  const OK_TITLE: string := "OK"
  const FORBIDDEN_TITLE: string := "Forbidden"
  const NOT_FOUND_TITLE: string := "Not Found"
  const INTERNAL_TITLE: string := "Internal Error"
  const FORBIDDEN_FORM: string := "You do not have permission to get file form this server.\n"
  const NOT_FOUND_FORM: string := "The requested file was not found on this server.\n"
  const INTERNAL_FORM: string := "There was an unusual problem serving the request file.\n"
  const BAD_TITLE: string := "Bad Request"
  const BAD_FORM_5: string := "Your request has bad syntax or is inherently impossible to satisfy.\n"
  const FORBIDDEN_FORM_5: string := "You do not have permission to get file from this server.\n"
  const INTERNAL_FORM_5: string := "There was an unusual problem serving the requested file.\n"
  const EMPTY_PAGE: string := "<html><body></body></html>"

  function StatusLine(status: nat, title: string): string {
    VERSION + " " + IntText(status) + " " + title + CRLF
  }

  /** The chap.5 version prints a blank behind the field names. */
  function Gap(v: Version): string { if v == Chap5 then " " else "" }

  function LengthField(v: Version, n: int): string { PRINTED_LENGTH + Gap(v) + IntText(n) + CRLF }

  function LingerField(v: Version, linger: bool): string {
    CONNECTION + Gap(v) + (if linger then KEEP_ALIVE else "close") + CRLF
  }

  /** What add_headers prints. */
  function HeaderText(v: Version, n: int, linger: bool): string {
    LengthField(v, n) + LingerField(v, linger) + CRLF
  }

  /** Status and title of the code, and the form that is its body.  Webserver answers
      BAD_REQUEST as 404 and has no answer for NO_RESOURCE; chap.5 tells them apart. */
  function FormOf(v: Version, code: HttpCode): Option<(nat, string, string)> {
    match code
    case INTERNAL_ERROR => Some((500, INTERNAL_TITLE, if v == Chap5 then INTERNAL_FORM_5 else INTERNAL_FORM))
    case BAD_REQUEST =>
      Some(if v == Chap5 then (400, BAD_TITLE, BAD_FORM_5) else (404, NOT_FOUND_TITLE, NOT_FOUND_FORM))
    case NO_RESOURCE => if v == Chap5 then Some((404, NOT_FOUND_TITLE, NOT_FOUND_FORM)) else None
    case FORBIDDEN_REQUEST => Some((403, FORBIDDEN_TITLE, if v == Chap5 then FORBIDDEN_FORM_5 else FORBIDDEN_FORM))
    case _ => None
  }

  /** The bytes that answer `code`: status line, headers with the length of the body,
      body.  An empty file has no answer: its case falls through to the default; the
      length of a file is passed on as an int. */
  function Answer(v: Version, code: HttpCode, file: seq<char>, linger: bool): Option<seq<char>> {
    if code == FILE_REQUEST then
      if file == [] then None
      else Some(StatusLine(200, OK_TITLE) + HeaderText(v, AsInt(|file|), linger) + file)
    else
      match FormOf(v, code)
      case None => None
      case Some((status, title, form)) => Some(StatusLine(status, title) + HeaderText(v, |form|, linger) + form)
  }

  /** What the header lines of add_headers leave alone. */
  ghost predicate KeepsRequest(c: Conn, d: Conn) {
    d.meth == c.meth && d.cgi == c.cgi && d.url == c.url && c.done <= d.done
  }

  lemma LinesKeepRequest(c: Conn, line: string, more: seq<char>, d: Conn, line2: string, more2: seq<char>,
                         e: Conn, line3: string, more3: seq<char>)
    requires KeepsRequest(Past(c, line, more), d) && KeepsRequest(Past(d, line2, more2), e)
    ensures KeepsRequest(c, Past(e, line3, more3)) && KeepsRequest(c, Past(e, line3, more3).(state := CONTENT))
  {
  }

  /** What add_headers prints is read back by parse_headers: the length, the linger
      flag, and whether a body follows. */
  lemma HeadersReadBack(v: Version, c: Conn, n: int, linger: bool, more: seq<char>)
    requires InHeaders(c) && IsInt(n) && c.rest == HeaderText(v, n, linger) + more
    ensures match HeaderPhase(c)
            case AtBody(h) =>
              n != 0 && h.contentLength == n && h.linger == (c.linger || linger) && h.rest == more
            case Done(code, h) =>
              n == 0 && code == GET_REQUEST && h.contentLength == 0 &&
              h.linger == (c.linger || linger) && h.rest == more
    ensures var p := HeaderPhase(c); KeepsRequest(c, p.conn)
  {
    hide HeaderPhase, AtolToInt, IntText, First, InHeaders, PlainText, CONNECTION, PRINTED_LENGTH, KEEP_ALIVE;
    var value := if linger then KEEP_ALIVE else "close";
    var tail := LingerField(v, linger) + (CRLF + more);
    assert HeaderText(v, n, linger) + more == LengthField(v, n) + tail by {
      hide LengthField, LingerField;
    }
    AtolOfIntText(n);
    PlainIntText(n);
    ContentLengthRound(c, Gap(v), IntText(n), tail);
    var c1 := Past(c, PRINTED_LENGTH + Gap(v) + IntText(n), tail).(contentLength := n);
    LingerReadBack(v, c1, linger, CRLF + more);
    var c2 := Past(c1, CONNECTION + Gap(v) + value, CRLF + more).(linger := c1.linger || linger);
    BlankRound(c2, more);
    LinesKeepRequest(c, PRINTED_LENGTH + Gap(v) + IntText(n), tail,
                     c1, CONNECTION + Gap(v) + value, CRLF + more, c2, "", more);
  }

  lemma LingerReadBack(v: Version, c: Conn, linger: bool, more: seq<char>)
    requires InHeaders(c) && c.rest == LingerField(v, linger) + more
    ensures var value := if linger then KEEP_ALIVE else "close";
            var d := Past(c, CONNECTION + Gap(v) + value, more).(linger := c.linger || linger);
            InHeaders(d) && HeaderPhase(c) == HeaderPhase(d)
  {
    var value := if linger then KEEP_ALIVE else "close";
    assert PlainText(value);
    assert EqNoCase(value, KEEP_ALIVE) == linger;
    hide HeaderPhase;
    ConnectionRound(c, Gap(v), value, more);
  }

  lemma PlainIntText(n: int)
    ensures PlainText(IntText(n)) && NotBlank(IntText(n)[0])
  {
    assert forall i :: 0 < i < |IntText(n)| ==> IsDigit(IntText(n)[i]);
  }

  /** The body process_write sends. */
  function BodyOf(v: Version, code: HttpCode, file: seq<char>): seq<char> {
    if code == FILE_REQUEST then file
    else if FormOf(v, code).Some? then FormOf(v, code).value.2
    else []
  }

  function StatusOf(v: Version, code: HttpCode): string {
    if code == FILE_REQUEST then StatusLine(200, OK_TITLE)
    else if FormOf(v, code).Some? then StatusLine(FormOf(v, code).value.0, FormOf(v, code).value.1)
    else ""
  }

  lemma FormAnswer(v: Version, code: HttpCode, file: seq<char>, linger: bool)
    requires code != FILE_REQUEST
    ensures match FormOf(v, code)
            case None => Answer(v, code, file, linger).None?
            case Some((status, title, form)) =>
              Answer(v, code, file, linger)
              == Some(StatusLine(status, title) + HeaderText(v, |form|, linger) + form)
    ensures code !in [INTERNAL_ERROR, BAD_REQUEST, NO_RESOURCE, FORBIDDEN_REQUEST] ==> FormOf(v, code).None?
  {
    hide StatusLine, HeaderText;
  }

  lemma FileAnswer(v: Version, file: seq<char>, linger: bool)
    ensures Answer(v, FILE_REQUEST, file, linger)
            == if file == [] then None
               else Some(StatusLine(200, OK_TITLE) + HeaderText(v, AsInt(|file|), linger) + file)
  {
    hide StatusLine, HeaderText, AsInt;
  }

  /** A body of any length, of which `first` has been read and `later` has not: a parser that
      has taken the status line of the answer finds `first` behind the blank line, and in
      Content-Length the number of bytes of the whole body exactly when that is an int. */
  lemma AnswerFramesBody(v: Version, code: HttpCode, file: seq<char>, linger: bool,
                         c: Conn, first: seq<char>, later: seq<char>)
    requires Answer(v, code, file, linger).Some? && BodyOf(v, code, file) == first + later
    requires InHeaders(c) && StatusOf(v, code) + c.rest + later == Answer(v, code, file, linger).value
    ensures var p, body := HeaderPhase(c), BodyOf(v, code, file);
            && p.conn.rest == first && p.conn.contentLength == AsInt(|body|) && p.conn.linger == (c.linger || linger)
            && (p.AtBody? && p.conn.contentLength == |body| <==> |body| <= INT_MAX)
  {
    hide HeaderPhase, HeaderText, StatusLine, InHeaders;
    AnswerParts(v, code, file, linger);
    hide Answer, StatusOf, BodyOf, AsInt;
    var body := BodyOf(v, code, file);
    var n := AsInt(|body|);
    SameMiddle(StatusOf(v, code), c.rest, HeaderText(v, n, linger), first, later);
    HeadersReadBack(v, c, n, linger, first);
  }

  /** The requires of AnswerFramesBody can be met for every answer, however long its body is:
      by the parser that has read the headers and none of the body yet. */
  lemma FramesAnyBody(v: Version, code: HttpCode, file: seq<char>, linger: bool)
    requires Answer(v, code, file, linger).Some?
    ensures var body := BodyOf(v, code, file);
            var c := Receive(Fresh().(state := HEADER), HeaderText(v, AsInt(|body|), linger));
            InHeaders(c) && StatusOf(v, code) + c.rest + body == Answer(v, code, file, linger).value
  {
    hide *;
    AnswerParts(v, code, file, linger);
    HeaderLength(v, AsInt(|BodyOf(v, code, file)|), linger);
    AtHeaders(HeaderText(v, AsInt(|BodyOf(v, code, file)|), linger));
  }

  lemma AtHeaders(text: string)
    requires |text| <= 55
    ensures var c := Receive(Fresh().(state := HEADER), text); InHeaders(c) && c.rest == text
  {
  }

  lemma AnswerParts(v: Version, code: HttpCode, file: seq<char>, linger: bool)
    requires Answer(v, code, file, linger).Some?
    ensures var body := BodyOf(v, code, file);
            var n := AsInt(|body|);
            && Answer(v, code, file, linger).value == StatusOf(v, code) + HeaderText(v, n, linger) + body
            && 0 < |body| && IsInt(n) && (|body| <= INT_MAX <==> n == |body|)
  {
    hide HeaderText, StatusLine;
    assert code != FILE_REQUEST ==> 0 < |BodyOf(v, code, file)| <= INT_MAX;
  }

  lemma SameMiddle(s: seq<char>, t: seq<char>, u: seq<char>, v: seq<char>, w: seq<char>)
    requires s + t + w == s + u + (v + w)
    ensures t == u + v
  {
    assert t == (s + t + w)[|s|..][..|t|];
    assert u + v == (s + u + (v + w))[|s|..][..|t|];
  }

  lemma HeaderLength(v: Version, n: int, linger: bool)
    requires IsInt(n)
    ensures |HeaderText(v, n, linger)| <= 55
  {
    IntTextLength(n);
    hide IntText;
  }

  lemma StatusLength(status: nat, title: string)
    requires status <= INT_MAX
    ensures |StatusLine(status, title)| <= 23 + |title|
  {
    IntTextLength(status);
    hide IntText;
  }

  lemma FormsFit(v: Version, code: HttpCode, linger: bool)
    requires FormOf(v, code).Some?
    ensures var (status, title, form) := FormOf(v, code).value;
            |StatusLine(status, title)| + |HeaderText(v, |form|, linger)| + |form| < WRITE_BUFFER_SIZE - 1
  {
    hide StatusLine, HeaderText;
    var (status, title, form) := FormOf(v, code).value;
    assert status <= 500 && |title| <= 20 && |form| <= 100;
    hide FormOf;
    StatusLength(status, title);
    HeaderLength(v, |form|, linger);
  }

  lemma PageFits(v: Version, n: int, linger: bool)
    requires IsInt(n)
    ensures |StatusLine(200, OK_TITLE)| + |HeaderText(v, n, linger)| + |EMPTY_PAGE| < WRITE_BUFFER_SIZE - 1
  {
    hide StatusLine, HeaderText;
    StatusLength(200, OK_TITLE);
    HeaderLength(v, n, linger);
  }

  /** The writing half of http_conn. */
  class ResponseWriter {
    const version: Version
    const m_write_buf: array<char>
    var m_write_idx: nat
    var m_linger: bool
    var m_file_address: seq<char>
    var iov0: Iov
    var iov1: Iov
    var m_iv_count: nat
    var bytes_to_send: int
    var bytes_have_send: int
    /** What the kernel has taken. */
    ghost var wire: seq<char>

    ghost predicate Valid()
      reads this
    {
      m_write_buf.Length == WRITE_BUFFER_SIZE && m_write_idx <= WRITE_BUFFER_SIZE
    }

    ghost function Text(): seq<char>
      reads this, m_write_buf
      requires Valid()
    {
      m_write_buf[..m_write_idx]
    }

    ghost function State(): Out
      reads this, m_write_buf
      requires Valid()
    {
      Out(Text(), if m_iv_count == 1 then [] else m_file_address, iov0, iov1, m_iv_count,
          bytes_to_send, bytes_have_send, wire)
    }

    constructor (v: Version, file: seq<char>, linger: bool)
      ensures Valid() && version == v && m_write_idx == 0 && m_file_address == file && m_linger == linger
      ensures bytes_to_send == 0 && bytes_have_send == 0 && wire == [] && fresh(m_write_buf)
    {
      version := v;
      m_write_buf := new char[WRITE_BUFFER_SIZE](_ => NUL);
      m_write_idx, m_linger, m_file_address := 0, linger, file;
      iov0, iov1, m_iv_count := Iov(0, 0), Iov(0, 0), 0;
      bytes_to_send, bytes_have_send, wire := 0, 0, [];
    }

    /** vsnprintf: at most `size` - 1 bytes of the text and a NUL. */
    method Vsnprintf(text: string, size: nat) returns (len: nat)
      requires Valid() && m_write_idx + size <= WRITE_BUFFER_SIZE
      modifies m_write_buf
      ensures len == |text|
      ensures m_write_buf[..m_write_idx] == old(m_write_buf[..m_write_idx])
      ensures size > 0 ==>
                var n := if |text| < size then |text| else size - 1;
                m_write_buf[m_write_idx..m_write_idx + n] == text[..n] && m_write_buf[m_write_idx + n] == NUL
      ensures m_write_buf[m_write_idx + size..] == old(m_write_buf[m_write_idx + size..])
    {
      var i := 0;
      while i < |text| && i + 1 < size
        invariant i <= |text| && (size > 0 ==> i < size) && (size == 0 ==> i == 0)
        invariant m_write_buf[..m_write_idx] == old(m_write_buf[..m_write_idx])
        invariant m_write_buf[m_write_idx..m_write_idx + i] == text[..i]
        invariant m_write_buf[m_write_idx + size..] == old(m_write_buf[m_write_idx + size..])
      {
        m_write_buf[m_write_idx + i] := text[i];
        i := i + 1;
      }
      if size > 0 {
        m_write_buf[m_write_idx + i] := NUL;
      }
      len := |text|;
    }

    method add_response(text: string) returns (ok: bool)
      requires Valid()
      modifies this`m_write_idx, m_write_buf
      ensures Valid()
      ensures ok <==> |text| < WRITE_BUFFER_SIZE - 1 - old(m_write_idx)
      ensures Text() == old(Text()) + if ok then text else ""
    {
      if m_write_idx >= WRITE_BUFFER_SIZE {
        return false;
      }
      var size := WRITE_BUFFER_SIZE - 1 - m_write_idx;
      var len := Vsnprintf(text, size);
      if len >= size {
        return false;
      }
      m_write_idx := m_write_idx + len;
      return true;
    }

    method add_status_line(status: nat, title: string) returns (ok: bool)
      requires Valid()
      modifies this`m_write_idx, m_write_buf
      ensures Valid()
      ensures ok <==> |StatusLine(status, title)| < WRITE_BUFFER_SIZE - 1 - old(m_write_idx)
      ensures Text() == old(Text()) + if ok then StatusLine(status, title) else ""
    {
      ok := add_response(VERSION + " " + IntText(status) + " " + title + CRLF);
    }

    method add_content_length(content_len: int) returns (ok: bool)
      requires Valid()
      modifies this`m_write_idx, m_write_buf
      ensures Valid()
      ensures ok <==> |LengthField(version, content_len)| < WRITE_BUFFER_SIZE - 1 - old(m_write_idx)
      ensures Text() == old(Text()) + if ok then LengthField(version, content_len) else ""
    {
      hide IntText;
      ok := add_response(PRINTED_LENGTH + Gap(version) + IntText(content_len) + CRLF);
    }

    method add_linger() returns (ok: bool)
      requires Valid()
      modifies this`m_write_idx, m_write_buf
      ensures Valid()
      ensures ok <==> |LingerField(version, m_linger)| < WRITE_BUFFER_SIZE - 1 - old(m_write_idx)
      ensures Text() == old(Text()) + if ok then LingerField(version, m_linger) else ""
    {
      ok := add_response(CONNECTION + Gap(version) + (if m_linger then KEEP_ALIVE else "close") + CRLF);
    }

    method add_blank_line() returns (ok: bool)
      requires Valid()
      modifies this`m_write_idx, m_write_buf
      ensures Valid()
      ensures ok <==> 2 < WRITE_BUFFER_SIZE - 1 - old(m_write_idx)
      ensures Text() == old(Text()) + if ok then CRLF else ""
    {
      ok := add_response(CRLF);
    }

    /** The three fields in order, each only when the one before it fitted. */
    method add_headers(content_len: int) returns (ok: bool)
      requires Valid()
      modifies this`m_write_idx, m_write_buf
      ensures Valid()
      ensures ok <==> |HeaderText(version, content_len, m_linger)| < WRITE_BUFFER_SIZE - 1 - old(m_write_idx)
      ensures ok ==> Text() == old(Text()) + HeaderText(version, content_len, m_linger)
    {
      hide LengthField, LingerField;
      ok := add_content_length(content_len);
      if ok {
        ok := add_linger();
      }
      if ok {
        ok := add_blank_line();
      }
    }

    method add_content(content: string) returns (ok: bool)
      requires Valid()
      modifies this`m_write_idx, m_write_buf
      ensures Valid()
      ensures ok <==> |content| < WRITE_BUFFER_SIZE - 1 - old(m_write_idx)
      ensures Text() == old(Text()) + if ok then content else ""
    {
      ok := add_response(content);
    }

    /** A whole answer that fits the buffer; the file is not part of it, so that its
        content is "". */
    method add_answer(status: nat, title: string, content_len: int, content: string) returns (ok: bool)
      requires Valid() && m_write_idx == 0
      requires |StatusLine(status, title)| + |HeaderText(version, content_len, m_linger)| + |content|
               < WRITE_BUFFER_SIZE - 1
      modifies this`m_write_idx, m_write_buf
      ensures Valid() && ok
      ensures Text() == StatusLine(status, title) + HeaderText(version, content_len, m_linger) + content
    {
      hide StatusLine, HeaderText;
      var _ := add_status_line(status, title);
      ok := add_headers(content_len);
      if content != "" {
        ok := add_content(content);
      }
    }

    /** The status line, headers and form of an error. */
    method add_form(code: HttpCode) returns (ok: bool)
      requires Valid() && m_write_idx == 0 && code != FILE_REQUEST
      modifies this`m_write_idx, m_write_buf
      ensures Valid() && (ok <==> Answer(version, code, m_file_address, m_linger).Some?)
      ensures ok ==> Text() == Answer(version, code, m_file_address, m_linger).value
    {
      hide StatusLine, HeaderText, Answer, FormOf;
      FormAnswer(version, code, m_file_address, m_linger);
      if FormOf(version, code).None? {
        return false;
      }
      var (status, title, form) := FormOf(version, code).value;
      FormsFit(version, code, m_linger);
      ok := add_answer(status, title, |form|, form);
    }

    /** The iovecs for the text alone, or for the text and the mapped file; the sum of
        their lengths is cut to an int. */
    method point_at_text(with_file: bool)
      requires Valid() && bytes_have_send == 0 && wire == []
      modifies this`iov0, this`iov1, this`m_iv_count, this`bytes_to_send
      ensures Valid() && Message(State()) == old(Text()) + if with_file then m_file_address else []
      ensures bytes_to_send == AsInt(|Message(State())|)
      ensures InStep(State()) <==> |Message(State())| <= INT_MAX
    {
      iov0 := Iov(0, m_write_idx);
      if with_file {
        iov1 := Iov(0, |m_file_address|);
        m_iv_count := 2;
        bytes_to_send := AsInt(m_write_idx + |m_file_address|);
        StartInStep(Text(), m_file_address, 2, iov1);
      } else {
        m_iv_count := 1;
        bytes_to_send := AsInt(m_write_idx);
        StartInStep(Text(), [], 1, iov1);
      }
    }

    method process_write(code: HttpCode) returns (ok: bool)
      requires Valid() && m_write_idx == 0 && bytes_have_send == 0 && wire == []
      modifies this`m_write_idx, this`iov0, this`iov1, this`m_iv_count, this`bytes_to_send, m_write_buf
      ensures Valid()
      ensures ok <==> Answer(version, code, m_file_address, m_linger).Some?
      ensures ok ==> bytes_to_send == AsInt(|Message(State())|)
      ensures ok ==> (InStep(State()) <==> |Message(State())| <= INT_MAX)
      ensures ok ==> Message(State()) == Answer(version, code, m_file_address, m_linger).value
    {
      hide InStep, Message, StatusLine, HeaderText, Answer, FormOf, AsInt, State, Text;
      match code {
        case INTERNAL_ERROR | BAD_REQUEST | FORBIDDEN_REQUEST | NO_RESOURCE =>
          ok := add_form(code);
          if !ok {
            return false;
          }
        case FILE_REQUEST =>
          FileAnswer(version, m_file_address, m_linger);
          if |m_file_address| != 0 {
            PageFits(version, AsInt(|m_file_address|), m_linger);
            var _ := add_answer(200, OK_TITLE, AsInt(|m_file_address|), "");
            point_at_text(true);
            return true;
          } else {
            PageFits(version, |EMPTY_PAGE|, m_linger);
            var _ := add_answer(200, OK_TITLE, |EMPTY_PAGE|, EMPTY_PAGE);
            return false;
          }
        case _ =>
          FormAnswer(version, code, m_file_address, m_linger);
          return false;
      }
      point_at_text(false);
      return true;
    }

    /** http_conn::init, as far as writing goes: ready for the next answer. */
    method init()
      requires Valid()
      modifies this, m_write_buf
      ensures Valid() && m_write_idx == 0 && !m_linger
      ensures bytes_to_send == 0 && bytes_have_send == 0 && wire == []
      ensures m_file_address == old(m_file_address)
      ensures m_write_buf[..] == seq(WRITE_BUFFER_SIZE, _ => NUL)
    {
      bytes_to_send, bytes_have_send, m_write_idx, m_linger := 0, 0, 0, false;
      wire := [];
      forall i | 0 <= i < m_write_buf.Length {
        m_write_buf[i] := NUL;
      }
    }

    /** The file is not mapped any more. */
    method unmap()
      modifies this`m_file_address
      ensures m_file_address == []
    {
      m_file_address := [];
    }

    /** The counters and iovecs after a writev that took `n` bytes. */
    method book(n: nat)
      requires Valid() && Described(State()).Some? && n <= |Described(State()).value|
      modifies this`bytes_have_send, this`bytes_to_send, this`iov0, this`iov1, this`wire
      ensures State() == Sent(version, old(State()), n)
    {
      wire := wire + Described(State()).value[..n];
      bytes_have_send := bytes_have_send + n;
      bytes_to_send := bytes_to_send - n;
      if bytes_have_send >= iov0.len {
        iov0 := iov0.(len := 0);
        iov1 := Iov(bytes_have_send - m_write_idx, bytes_to_send);
      } else {
        iov0 := Iov(bytes_have_send, iov0.len - if version == Webserver then bytes_have_send else n);
      }
    }

    /** One call of write against the results of writev (-1: EAGAIN, less: another
        error).  `sent` is what the wire holds when the answer is finished or the call returns. */
    method write(results: seq<int>) returns (ok: bool, ghost outcome: Outcome, ghost sent: seq<char>)
      requires Valid() && version != Asio && Possible(version, State(), results)
      modifies this, m_write_buf
      ensures Valid()
      ensures old(bytes_to_send) == 0 ==> outcome == Idle && ok && m_write_idx == 0 && sent == old(wire)
      ensures old(bytes_to_send) != 0 ==>
                && outcome == WriteLoop(version, old(State()), results).1
                && sent == WriteLoop(version, old(State()), results).0.wire
                && (outcome == Later ==> State() == WriteLoop(version, old(State()), results).0
                                         && m_file_address == old(m_file_address))
                && (outcome == Broken ==> State() == WriteLoop(version, old(State()), results).0.(file := []))
                && (outcome == Broken || outcome == Finished ==> m_file_address == [])
      ensures old(bytes_to_send) != 0 ==> EndsBy(results, old(bytes_to_send), outcome)
      ensures old(bytes_to_send) != 0 && outcome != Finished ==>
                && bytes_have_send == old(bytes_have_send) + TakenInAll(results)
                && bytes_to_send == old(bytes_to_send) - TakenInAll(results)
                && (outcome == Later && FirstError(results) == 0 ==> State() == old(State()))
      ensures outcome == Later ==> ok
      ensures outcome == Broken ==> !ok
      ensures outcome == Finished ==> ok == old(m_linger) && (ok ==> m_write_idx == 0 && bytes_to_send == 0)
    {
      hide EndsBy, TakenInAll, FirstError, Described, Book, Slice, Message;
      if bytes_to_send == 0 {
        sent, outcome := wire, Idle;
        init();
        return true, outcome, sent;
      }
      ghost var start := State();
      WriteEndsExactly(version, start, results);
      var i := 0;
      while i < |results|
        invariant 0 <= i <= |results|
        invariant Valid() && m_linger == old(m_linger) && m_file_address == old(m_file_address)
        invariant Possible(version, State(), results[i..])
        invariant WriteLoop(version, State(), results[i..]) == WriteLoop(version, start, results)
      {
        var temp := results[i];
        assert results[i..][0] == temp && results[i..][1..] == results[i + 1..];
        if temp < 0 {
          sent := wire;
          if temp == EAGAIN {
            return true, Later, sent;
          }
          unmap();
          return false, Broken, sent;
        }
        book(temp);
        i := i + 1;
        if bytes_to_send <= 0 {
          sent := wire;
          unmap();
          if m_linger {
            init();
            return true, Finished, sent;
          }
          return false, Finished, sent;
        }
      }
      return true, Later, wire;
    }
  }
}
