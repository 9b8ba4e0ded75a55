/** How the answer of process_read depends on the way the bytes arrive: not at all
    while the request line and the headers are read, and inside a body only as far
    as the stray parse_line call behind parse_content has moved m_checked_idx. */
module HttpChunking {
  import opened CStrings
  import opened HttpParser
  import opened Wrappers

  /** The part of the loop before the body is first looked at. */
  datatype Phase = Done(code: HttpCode, conn: Conn) | AtBody(conn: Conn)

  function HeaderPhase(c: Conn): (p: Phase)
    requires Inv(c)
    ensures p.AtBody? ==> Inv(p.conn) && p.conn.state == CONTENT && ReadIdx(p.conn) == ReadIdx(c)
    ensures p.AtBody? && c.state != CONTENT ==> p.conn.startLine == |p.conn.done|
    ensures p.Done? && p.code == NO_REQUEST ==> p.conn.state != CONTENT && Inv(p.conn) && ReadIdx(p.conn) == ReadIdx(c)
    decreases |c.rest|
  {
    if c.state == CONTENT then AtBody(c)
    else
      var (l, d) := ParseLine(c);
      if l != LINE_OK then
        NoLineKeepsBuffer(c);
        Done(NO_REQUEST, d)
      else
        LineEndsAtPair(c);
        var (code, e) := HandleLine(d);
        hide HandleLine, ParseLine;
        if code != NO_REQUEST then Done(code, e) else HeaderPhase(e)
  }

  lemma {:induction false} LoopIsPhases(c: Conn)
    requires Inv(c)
    ensures ProcessRead(c) == match HeaderPhase(c)
                              case Done(code, d) => (code, d)
                              case AtBody(h) => ProcessRead(h)
    decreases |c.rest|
  {
    hide HandleLine, ParseLine;
    if c.state != CONTENT && ParseLine(c).0 == LINE_OK {
      LineEndsAtPair(c);
      var (code, e) := HandleLine(ParseLine(c).1);
      if code == NO_REQUEST {
        LoopIsPhases(e);
      }
    }
  }

  // --- one line -----------------------------------------------------------------

  lemma SearchExtends(x: seq<char>, b: seq<char>)
    ensures var j := First(x, 0, CrOrLf);
            First(x + b, 0, CrOrLf) == if j < |x| then j else First(x + b, |x|, CrOrLf)
  {
    FirstIs(x + b, 0, CrOrLf, First(x + b, First(x, 0, CrOrLf), CrOrLf));
  }

  /** A line found in the first bytes is found unchanged when more have arrived. */
  lemma FoundLineExtends(c: Conn, b: seq<char>)
    requires Inv(c) && ParseLine(c).0 == LINE_OK
    ensures ParseLine(Receive(c, b)) == (LINE_OK, Receive(ParseLine(c).1, b))
  {
    hide ParseLine, First;
    var x := c.rest;
    var k := First(x, 0, CrOrLf);
    SearchExtends(x, b);
    StatusAtFirst(c);
    assert (x + b)[..k] == x[..k] && (x + b)[k..k + 2] == x[k..k + 2] && (x + b)[k + 2..] == x[k + 2..] + b;
    StatusAtFirst(Receive(c, b));
    PairTaken(c);
    PairTaken(Receive(c, b));
  }

  /** Bytes without CR or LF may be skipped before parse_line or by it. */
  lemma SkipThenParse(c: Conn, k: nat)
    requires k <= First(c.rest, 0, CrOrLf)
    ensures ParseLine(Skip(c, k)) == ParseLine(c)
  {
    hide LineAt;
    var x := c.rest;
    var j := First(x, 0, CrOrLf);
    FirstIs(x[k..], 0, CrOrLf, j - k);
    assert c.done + x[..k] + x[k..][..j - k] == c.done + x[..j];
    assert x[k..][j - k..] == x[j..];
  }

  /** A call that found no line can be repeated, later and with more bytes, as if it
      had not been made. */
  lemma NoLineResumes(c: Conn, b: seq<char>)
    requires Inv(c) && ParseLine(c).0 != LINE_OK
    ensures ParseLine(Receive(ParseLine(c).1, b)) == ParseLine(Receive(c, b))
  {
    hide ParseLine;
    SearchExtends(c.rest, b);
    NoLineKeepsBuffer(c);
    var k := First(c.rest, 0, CrOrLf);
    SkipThenParse(Receive(c, b), k);
    assert (c.rest + b)[..k] == c.rest[..k];
    assert (c.rest + b)[k..] == c.rest[k..] + b;
  }

  lemma UrlIgnoresRest(c: Conn, u: nat, r: seq<char>)
    requires LineReady(c.done, u)
    ensures var (code, e) := ParseUrl(c, u);
            ParseUrl(c.(rest := r), u) == (code, e.(rest := r))
  {
    hide CutWord, Target, CStr, AppendJudge, EqNoCase;
  }

  lemma RequestLineIgnoresRest(c: Conn, text: nat, r: seq<char>)
    requires LineReady(c.done, text)
    ensures var (code, e) := ParseRequestLine(c, text);
            ParseRequestLine(c.(rest := r), text) == (code, e.(rest := r))
  {
    hide ParseUrl, CutWord, CStr, EqNoCase, First;
    var w := CutWord(c.done, text);
    if w.Some? {
      var (b, u) := w.value;
      if EqNoCase(CStr(b, text), "GET") {
        UrlIgnoresRest(c.(done := b, meth := GET), u, r);
      } else if EqNoCase(CStr(b, text), "POST") {
        UrlIgnoresRest(c.(done := b, meth := POST, cgi := true), u, r);
      }
    }
  }

  lemma LineWorkExtends(c: Conn, b: seq<char>)
    requires c.state != CONTENT && Bounds(c) && LineReady(c.done, c.startLine)
    requires ReadIdx(c) + |b| <= READ_BUFFER_SIZE
    ensures var (code, e) := HandleLine(c);
            HandleLine(Receive(c, b)) == (code, Receive(e, b))
  {
    hide ParseRequestLine, CStr, EqNoCase, HasPrefixNoCase, AtolToInt;
    RequestLineIgnoresRest(c.(startLine := |c.done|), c.startLine, c.rest + b);
  }

  // --- one boundary ---------------------------------------------------------------

  lemma {:induction false} PhaseExtends(c: Conn, b: seq<char>)
    requires Inv(c) && ReadIdx(c) + |b| <= READ_BUFFER_SIZE
    ensures match HeaderPhase(c)
            case AtBody(h) => HeaderPhase(Receive(c, b)) == AtBody(Receive(h, b))
            case Done(code, d) =>
              if code == NO_REQUEST then HeaderPhase(Receive(d, b)) == HeaderPhase(Receive(c, b))
              else HeaderPhase(Receive(c, b)) == Done(code, Receive(d, b))
    decreases |c.rest|
  {
    hide HandleLine, ParseLine;
    if c.state != CONTENT {
      if ParseLine(c).0 == LINE_OK {
        FoundLineExtends(c, b);
        LineEndsAtPair(c);
        var d := ParseLine(c).1;
        LineWorkExtends(d, b);
        var (code, e) := HandleLine(d);
        if code == NO_REQUEST {
          PhaseExtends(e, b);
        }
      } else {
        NoLineResumes(c, b);
        NoLineKeepsBuffer(c);
      }
    }
  }

  /** parse_line does not move over the body bytes that are there. */
  predicate BodyUnscanned(h: Conn) {
    || h.rest == []
    || h.rest[0] == LF
    || (h.rest[0] == CR && (|h.rest| == 1 || h.rest[1] != LF))
  }

  /** The bytes of this call end before the body, or at least none of the body is
      scanned: the boundary behind them is harmless. */
  ghost predicate HarmlessBoundary(c: Conn)
    requires Inv(c)
  {
    match HeaderPhase(c)
    case Done(_, _) => true
    case AtBody(h) => h.startLine == |h.done| && BodyUnscanned(h)
  }

  lemma UnscannedBodyStays(h: Conn)
    requires Inv(h) && h.state == CONTENT && h.startLine == |h.done|
    requires BodyUnscanned(h) && ProcessRead(h).0 == NO_REQUEST
    ensures ProcessRead(h).1 == h
  {
    if HandleLine(h).0 == NO_REQUEST {
      hide HandleLine, ParseContent;
      assert HandleLine(h).1 == h;
      UnscannedLine(h);
      hide ParseLine;
      assert Loop(h, LINE_OPEN) == (NO_REQUEST, h);
    }
  }

  lemma UnscannedLine(h: Conn)
    requires Inv(h) && BodyUnscanned(h)
    ensures ParseLine(h).0 != LINE_OK && ParseLine(h).1 == h
  {
    FirstIs(h.rest, 0, CrOrLf, 0);
    assert Skip(h, 0) == h;
    hide First;
  }

  /** Two calls on consecutive pieces give the code and the whole parser state of one
      call on both, unless the boundary between them lies inside a scanned body. */
  lemma ChunkingAgrees(c: Conn, b: seq<char>)
    requires Inv(c) && ReadIdx(c) + |b| <= READ_BUFFER_SIZE
    requires ProcessRead(c).0 == NO_REQUEST && HarmlessBoundary(c)
    ensures ProcessRead(Receive(ProcessRead(c).1, b)) == ProcessRead(Receive(c, b))
    ensures HeaderPhase(Receive(ProcessRead(c).1, b)) == HeaderPhase(Receive(c, b))
  {
    hide HandleLine, ParseLine, Loop, ProcessRead;
    LoopIsPhases(c);
    PhaseExtends(c, b);
    LoopIsPhases(Receive(c, b));
    match HeaderPhase(c) {
      case Done(_, d) =>
        LoopIsPhases(Receive(d, b));
      case AtBody(h) =>
        UnscannedBodyStays(h);
    }
  }

  // --- boundaries inside a body -----------------------------------------------------

  const LENGTH_LIMIT: int := INT_MAX - READ_BUFFER_SIZE

  /** parse_content on a body that is not complete scans on, but completes nothing. */
  lemma {:induction false} BodyStalls(c: Conn, ls: LineStatus)
    requires Inv(c) && c.state == CONTENT && c.contentLength <= LENGTH_LIMIT
    requires ReadIdx(c) < c.contentLength + |c.done|
    ensures var (code, d) := Loop(c, ls);
            && code == NO_REQUEST
            && d.state == CONTENT && d.contentLength == c.contentLength
    decreases |c.rest|, if ls == LINE_OK then 1 else 0
  {
    hide HandleLine, ParseLine;
    if ls == LINE_OK {
      BodyWaits(c);
      BodyStalls(HandleLine(c).1, LINE_OPEN);
    } else if ParseLine(c).0 == LINE_OK {
      LineEndsAtPair(c);
      BodyWaits(ParseLine(c).1);
      BodyStalls(HandleLine(ParseLine(c).1).1, LINE_OPEN);
    } else {
      NoLineKeepsBuffer(c);
    }
  }

  lemma BodyWaits(c: Conn)
    requires Bounds(c) && c.state == CONTENT && c.contentLength <= LENGTH_LIMIT
    requires ReadIdx(c) < c.contentLength + |c.done|
    ensures HandleLine(c) == (NO_REQUEST, c.(startLine := |c.done|))
  {
  }

  /** The answer in the middle of a body: complete iff the bytes read reach
      m_content_length counted from m_checked_idx. */
  lemma BodyAnswer(h: Conn)
    requires Inv(h) && h.state == CONTENT && 0 < h.contentLength <= LENGTH_LIMIT
    requires ReadIdx(h) < READ_BUFFER_SIZE
    ensures var (code, d) := ProcessRead(h);
            if h.contentLength + |h.done| <= ReadIdx(h) then
              code == GET_REQUEST && |d.done| == |h.done| && d.body == Some(h.startLine)
            else code == NO_REQUEST && d.state == CONTENT && d.contentLength == h.contentLength
  {
    if ReadIdx(h) < h.contentLength + |h.done| {
      BodyStalls(h, LINE_OK);
    }
  }

  /** An incomplete body moves m_checked_idx exactly when some of it can be scanned. */
  lemma BodyScanMoves(h: Conn)
    requires Inv(h) && h.state == CONTENT && h.startLine == |h.done|
    requires ProcessRead(h).0 == NO_REQUEST
    ensures |ProcessRead(h).1.done| == |h.done| <==> BodyUnscanned(h)
  {
    if BodyUnscanned(h) {
      UnscannedBodyStays(h);
    } else {
      assert First(h.rest, 0, CrOrLf) > 0 || ParseLine(h).0 == LINE_OK;
      hide HandleLine, ParseLine;
      assert HandleLine(h) == (NO_REQUEST, h);
      assert ProcessRead(h) == Loop(h, LINE_OPEN);
      if ParseLine(h).0 == LINE_OK {
        LineEndsAtPair(h);
      } else {
        NoLineKeepsBuffer(h);
      }
    }
  }

  /** A boundary inside a body, exactly.  One call answers GET_REQUEST when the whole
      body has arrived.  Two calls do so only when as many further bytes have come as
      the first call scanned, and they leave the same parser iff it scanned none. */
  lemma SplitBodyExactly(c: Conn, b: seq<char>)
    requires Inv(c) && ReadIdx(c) + |b| < READ_BUFFER_SIZE
    requires ProcessRead(c).0 == NO_REQUEST && HeaderPhase(c).AtBody?
    requires HeaderPhase(c).conn.startLine == |HeaderPhase(c).conn.done|
    requires HeaderPhase(c).conn.contentLength <= LENGTH_LIMIT
    ensures var h := HeaderPhase(c).conn;
            var c1 := ProcessRead(c).1;
            var whole, split := ProcessRead(Receive(c, b)), ProcessRead(Receive(c1, b));
            var arrived := ReadIdx(c) + |b|;
            && (whole.0 == if h.contentLength + |h.done| <= arrived then GET_REQUEST else NO_REQUEST)
            && (split.0 == if h.contentLength + |c1.done| <= arrived then GET_REQUEST else NO_REQUEST)
            && (|c1.done| == |h.done| <==> BodyUnscanned(h))
            && (whole.0 == GET_REQUEST ==> (split == whole <==> BodyUnscanned(h)))
  {
    hide HandleLine, ParseLine, Loop, ProcessRead;
    LoopIsPhases(c);
    PhaseExtends(c, b);
    LoopIsPhases(Receive(c, b));
    var h := HeaderPhase(c).conn;
    var c1 := ProcessRead(c).1;
    BodyPending(h);
    BodyAnswer(h);
    BodyScanMoves(h);
    BodyAnswer(Receive(h, b));
    BodyAnswer(Receive(c1, b));
    if BodyUnscanned(h) {
      ChunkingAgrees(c, b);
    }
  }

  /** The consequence for a plain body: cut once, strictly inside, it is never seen to
      be complete, although one call on the same bytes completes it. */
  lemma CutBodyStalls(c: Conn, b: seq<char>)
    requires Inv(c) && ReadIdx(c) + |b| < READ_BUFFER_SIZE
    requires var p := HeaderPhase(c);
             && p.AtBody? && p.conn.startLine == |p.conn.done|
             && p.conn.rest != [] && b != [] && p.conn.contentLength == |p.conn.rest| + |b|
             && forall i :: 0 <= i < |p.conn.rest| ==> !CrOrLf(p.conn.rest[i])
    ensures ProcessRead(Receive(c, b)).0 == GET_REQUEST
    ensures ProcessRead(c).0 == NO_REQUEST
    ensures ProcessRead(Receive(ProcessRead(c).1, b)).0 == NO_REQUEST
  {
    var h := HeaderPhase(c).conn;
    LoopIsPhases(c);
    FirstIs(h.rest, 0, CrOrLf, |h.rest|);
    assert Loop(h, LINE_OPEN) == (NO_REQUEST, Skip(h, |h.rest|));
    assert ProcessRead(h) == Loop(h, LINE_OPEN) by {
      assert HandleLine(h) == (NO_REQUEST, h);
    }
    hide ProcessRead, HeaderPhase;
    SplitBodyExactly(c, b);
  }

  lemma BodyPending(h: Conn)
    requires Inv(h) && h.state == CONTENT && ProcessRead(h).0 == NO_REQUEST
    ensures ReadIdx(h) < h.contentLength + |h.done| && h.contentLength > 0
  {
  }

  /** An answer other than NO_REQUEST does not depend on bytes that arrive later. */
  lemma AnswerIsFinal(c: Conn, b: seq<char>)
    requires Inv(c) && ReadIdx(c) + |b| <= READ_BUFFER_SIZE
    requires HeaderPhase(c).AtBody? ==> HeaderPhase(c).conn.contentLength <= LENGTH_LIMIT
    requires ProcessRead(c).0 != NO_REQUEST
    ensures ProcessRead(Receive(c, b)).0 == ProcessRead(c).0
  {
    hide HandleLine, ParseLine;
    LoopIsPhases(c);
    PhaseExtends(c, b);
    LoopIsPhases(Receive(c, b));
    if HeaderPhase(c).AtBody? {
      BodyAnswerExtends(HeaderPhase(c).conn, b);
    }
  }

  lemma BodyAnswerExtends(h: Conn, b: seq<char>)
    requires Inv(h) && h.state == CONTENT && h.contentLength <= LENGTH_LIMIT
    requires ReadIdx(h) + |b| <= READ_BUFFER_SIZE && ProcessRead(h).0 != NO_REQUEST
    ensures ProcessRead(Receive(h, b)).0 == ProcessRead(h).0
  {
    hide ParseLine;
    if ReadIdx(h) < h.contentLength + |h.done| {
      BodyStalls(h, LINE_OK);
    }
  }

  // --- any number of boundaries -----------------------------------------------------

  function Flatten(chunks: seq<seq<char>>): seq<char> {
    if chunks == [] then [] else chunks[0] + Flatten(chunks[1..])
  }

  /** One process_read per arriving piece until one does not answer NO_REQUEST: its
      answer, the parser then, and the pieces not fed. */
  function Feed(c: Conn, chunks: seq<seq<char>>): (HttpCode, Conn, seq<seq<char>>)
    requires Inv(c) && chunks != [] && ReadIdx(c) + |Flatten(chunks)| <= READ_BUFFER_SIZE
    decreases |chunks|
  {
    var (code, d) := ProcessRead(Receive(c, chunks[0]));
    if code == NO_REQUEST && |chunks| > 1 then Feed(d, chunks[1..]) else (code, d, chunks[1..])
  }

  ghost predicate HarmlessBoundaries(c: Conn, chunks: seq<seq<char>>)
    requires Inv(c) && chunks != [] && ReadIdx(c) + |Flatten(chunks)| <= READ_BUFFER_SIZE
    decreases |chunks|
  {
    var (code, d) := ProcessRead(Receive(c, chunks[0]));
    code == NO_REQUEST && |chunks| > 1 ==>
      HarmlessBoundary(Receive(c, chunks[0])) && HarmlessBoundaries(d, chunks[1..])
  }

  /** No Content-Length in the request line or headers read so far is so large that
      parse_content would overflow. */
  ghost predicate LengthInRange(c: Conn)
    requires Inv(c)
  {
    HeaderPhase(c).AtBody? ==> HeaderPhase(c).conn.contentLength <= LENGTH_LIMIT
  }

  /** However the bytes are cut, with no harmful boundary the answer is that of one
      call on all of them, and so is the whole parser once all pieces were needed. */
  lemma {:induction false} AnyChunkingAgrees(c: Conn, chunks: seq<seq<char>>)
    requires Inv(c) && chunks != [] && ReadIdx(c) + |Flatten(chunks)| <= READ_BUFFER_SIZE
    requires HarmlessBoundaries(c, chunks) && LengthInRange(Receive(c, Flatten(chunks)))
    ensures var (code, d, left) := Feed(c, chunks);
            var whole := ProcessRead(Receive(c, Flatten(chunks)));
            code == whole.0 && (left == [] ==> d == whole.1)
    decreases |chunks|
  {
    hide ProcessRead, HeaderPhase, HarmlessBoundary;
    var first, others := chunks[0], chunks[1..];
    var c1 := Receive(c, first);
    var (code, d) := ProcessRead(c1);
    assert Flatten(chunks) == first + Flatten(others);
    assert Receive(c1, Flatten(others)) == Receive(c, Flatten(chunks));
    if others == [] {
      assert Flatten(chunks) == first;
    } else {
      PhaseExtends(c1, Flatten(others));
      if code == NO_REQUEST {
        ChunkingAgrees(c1, Flatten(others));
        AnyChunkingAgrees(d, others);
      } else {
        AnswerIsFinal(c1, Flatten(others));
      }
    }
  }

  /** A request that ends with its headers may be cut anywhere; when nothing follows
      it, all the pieces are needed. */
  lemma {:induction false} BodilessChunking(c: Conn, chunks: seq<seq<char>>)
    requires Inv(c) && chunks != [] && ReadIdx(c) + |Flatten(chunks)| <= READ_BUFFER_SIZE
    requires HeaderPhase(Receive(c, Flatten(chunks))).Done?
    ensures var (code, d, left) := Feed(c, chunks);
            var whole := ProcessRead(Receive(c, Flatten(chunks)));
            && code == whole.0 && (left == [] ==> d == whole.1)
            && (whole.1.rest == [] && (forall k :: 0 <= k < |chunks| ==> chunks[k] != []) ==> left == [])
    decreases |chunks|
  {
    hide ProcessRead, HeaderPhase;
    var first, others := chunks[0], chunks[1..];
    var c1 := Receive(c, first);
    var whole := Receive(c, Flatten(chunks));
    assert Flatten(chunks) == first + Flatten(others);
    assert Receive(c1, Flatten(others)) == whole;
    LoopIsPhases(c1);
    LoopIsPhases(whole);
    if others == [] {
      assert Flatten(chunks) == first;
    } else {
      PhaseExtends(c1, Flatten(others));
      if ProcessRead(c1).0 == NO_REQUEST {
        LoopIsPhases(Receive(ProcessRead(c1).1, Flatten(others)));
        BodilessChunking(ProcessRead(c1).1, others);
      } else {
        assert Flatten(others) == others[0] + Flatten(others[1..]);
        assert others[0] == chunks[1];
      }
    }
  }

  // --- boundaries said by their positions -------------------------------------------

  /** Where the body that the headers announce starts and ends, counted in bytes read. */
  ghost predicate InsideBody(whole: Conn, position: nat)
    requires Inv(whole)
  {
    match HeaderPhase(whole)
    case Done(_, _) => false
    case AtBody(h) => |h.done| < position < |h.done| + h.contentLength
  }

  /** No boundary between two pieces lies strictly inside the body. */
  ghost predicate CutsOutsideBody(c: Conn, chunks: seq<seq<char>>)
    requires Inv(c) && ReadIdx(c) + |Flatten(chunks)| <= READ_BUFFER_SIZE
  {
    forall i :: 0 < i < |chunks| ==>
      !InsideBody(Receive(c, Flatten(chunks)), ReadIdx(c) + |Flatten(chunks[..i])|)
  }

  lemma {:induction false} FlattenPrefix(chunks: seq<seq<char>>, i: nat)
    requires 0 < i <= |chunks|
    ensures |Flatten(chunks[..i])| == |chunks[0]| + |Flatten(chunks[1..][..i - 1])|
  {
    assert chunks[..i][1..] == chunks[1..][..i - 1];
  }

  /** After a first piece that leaves a request pending, the other cuts lie as before. */
  lemma CutsStayOutside(c: Conn, d: Conn, chunks: seq<seq<char>>)
    requires Inv(c) && Inv(d) && |chunks| > 1 && ReadIdx(c) + |Flatten(chunks)| <= READ_BUFFER_SIZE
    requires ReadIdx(d) == ReadIdx(c) + |chunks[0]| && CutsOutsideBody(c, chunks)
    requires HeaderPhase(Receive(d, Flatten(chunks[1..]))) == HeaderPhase(Receive(c, Flatten(chunks)))
    ensures CutsOutsideBody(d, chunks[1..])
  {
    hide HeaderPhase;
    forall i | 0 < i < |chunks| - 1
      ensures !InsideBody(Receive(d, Flatten(chunks[1..])), ReadIdx(d) + |Flatten(chunks[1..][..i])|)
    {
      FlattenPrefix(chunks, i + 1);
      assert !InsideBody(Receive(c, Flatten(chunks)), ReadIdx(c) + |Flatten(chunks[..i + 1])|);
    }
  }

  /** A first piece that ends outside the body, and not after it, scans none of it. */
  lemma FirstCutHarmless(c: Conn, chunks: seq<seq<char>>)
    requires Inv(c) && |chunks| > 1 && ReadIdx(c) + |Flatten(chunks)| <= READ_BUFFER_SIZE
    requires c.state == CONTENT ==> c.startLine == |c.done|
    requires CutsOutsideBody(c, chunks) && ProcessRead(Receive(c, chunks[0])).0 == NO_REQUEST
    ensures HarmlessBoundary(Receive(c, chunks[0]))
    ensures var d := ProcessRead(Receive(c, chunks[0])).1;
            d.state == CONTENT ==> d.startLine == |d.done|
  {
    hide ProcessRead, HeaderPhase, Loop, HandleLine, ParseLine;
    var c1, rest := Receive(c, chunks[0]), Flatten(chunks[1..]);
    FlattenPrefix(chunks, 1);
    assert Flatten(chunks[1..][..0]) == [];
    assert Receive(c1, rest) == Receive(c, Flatten(chunks));
    assert !InsideBody(Receive(c1, rest), ReadIdx(c1));
    LoopIsPhases(c1);
    PhaseExtends(c1, rest);
    match HeaderPhase(c1) {
      case Done(_, _) =>
      case AtBody(h) =>
        BodyPending(h);
        assert h.rest == [];
        StartAtBody(c1);
        UnscannedBodyStays(h);
    }
  }

  lemma StartAtBody(c: Conn)
    requires Inv(c) && HeaderPhase(c).AtBody? && (c.state == CONTENT ==> c.startLine == |c.done|)
    ensures HeaderPhase(c).conn.startLine == |HeaderPhase(c).conn.done|
  {
  }

  lemma ReceiveTwice(c: Conn, a: seq<char>, b: seq<char>)
    ensures Receive(Receive(c, a), b) == Receive(c, a + b)
  {
    assert c.rest + (a + b) == c.rest + a + b;
  }

  lemma ReceiveKeepsInv(c: Conn, a: seq<char>)
    requires Inv(c) && ReadIdx(c) + |a| <= READ_BUFFER_SIZE
    ensures ReadIdx(Receive(c, a)) == ReadIdx(c) + |a| && Inv(Receive(c, a))
  {
  }

  lemma FlattenHead(chunks: seq<seq<char>>)
    requires chunks != []
    ensures Flatten(chunks) == chunks[0] + Flatten(chunks[1..])
    ensures |Flatten(chunks)| == |chunks[0]| + |Flatten(chunks[1..])|
  {
  }

  lemma ReceiveInTwo(c: Conn, chunks: seq<seq<char>>)
    requires chunks != [] && Inv(c) && ReadIdx(c) + |Flatten(chunks)| <= READ_BUFFER_SIZE
    ensures var c1, rest := Receive(c, chunks[0]), Flatten(chunks[1..]);
            && Receive(c1, rest) == Receive(c, Flatten(chunks))
            && ReadIdx(c1) == ReadIdx(c) + |chunks[0]| && ReadIdx(c1) + |rest| <= READ_BUFFER_SIZE && Inv(c1)
  {
    hide *;
    FlattenHead(chunks);
    ReceiveTwice(c, chunks[0], Flatten(chunks[1..]));
    ReceiveKeepsInv(c, chunks[0]);
  }

  lemma {:induction false} CutsAreHarmless(c: Conn, chunks: seq<seq<char>>)
    requires Inv(c) && chunks != [] && ReadIdx(c) + |Flatten(chunks)| <= READ_BUFFER_SIZE
    requires c.state == CONTENT ==> c.startLine == |c.done|
    requires CutsOutsideBody(c, chunks)
    ensures HarmlessBoundaries(c, chunks)
    decreases |chunks|
  {
    hide ProcessRead, HeaderPhase, HarmlessBoundary, CutsOutsideBody, Receive, Flatten;
    var c1, rest := Receive(c, chunks[0]), Flatten(chunks[1..]);
    ReceiveInTwo(c, chunks);
    if ProcessRead(c1).0 == NO_REQUEST && |chunks| > 1 {
      FirstCutHarmless(c, chunks);
      var d := ProcessRead(c1).1;
      ChunkingAgrees(c1, rest);
      CutsStayOutside(c, d, chunks);
      CutsAreHarmless(d, chunks[1..]);
    }
  }

  /** Chunking does not matter: from a fresh connection, if no boundary lies strictly
      inside the body, the pieces are answered as their bytes in one. */
  lemma ChunkingDoesNotMatter(chunks: seq<seq<char>>)
    requires chunks != [] && |Flatten(chunks)| <= READ_BUFFER_SIZE
    requires CutsOutsideBody(Fresh(), chunks) && LengthInRange(Receive(Fresh(), Flatten(chunks)))
    ensures var (code, d, left) := Feed(Fresh(), chunks);
            var whole := ProcessRead(Receive(Fresh(), Flatten(chunks)));
            code == whole.0 && (left == [] ==> d == whole.1)
  {
    hide ProcessRead, HeaderPhase, CutsOutsideBody, HarmlessBoundaries, LengthInRange;
    CutsAreHarmless(Fresh(), chunks);
    AnyChunkingAgrees(Fresh(), chunks);
  }

  // --- a body that is cut ------------------------------------------------------------

  /** Once m_checked_idx is so far on that the bytes to come cannot reach the length
      counted from it, nothing completes the request. */
  lemma {:induction false} StallsOn(c: Conn, chunks: seq<seq<char>>)
    requires Inv(c) && c.state == CONTENT && c.contentLength <= LENGTH_LIMIT && chunks != []
    requires ReadIdx(c) + |Flatten(chunks)| <= READ_BUFFER_SIZE
    requires ReadIdx(c) + |Flatten(chunks)| < c.contentLength + |c.done|
    ensures var (code, _, left) := Feed(c, chunks); code == NO_REQUEST && left == []
    decreases |chunks|
  {
    var c1 := Receive(c, chunks[0]);
    BodyStalls(c1, LINE_OK);
    hide Loop;
    if |chunks| > 1 {
      StallsOn(ProcessRead(c1).1, chunks[1..]);
    } else {
      assert chunks[1..] == [];
    }
  }

  // --- exactly when pieces agree with their bytes in one --------------------------------

  /** A body that has not arrived never completes a request, whatever its length. */
  lemma {:induction false} BodyNotDone(c: Conn, ls: LineStatus)
    requires Inv(c) && c.state == CONTENT && ReadIdx(c) < c.contentLength + |c.done|
    ensures Loop(c, ls).0 != GET_REQUEST
    decreases |c.rest|, if ls == LINE_OK then 1 else 0
  {
    hide HandleLine, ParseLine;
    if ls == LINE_OK {
      BodyHeld(c);
      if HandleLine(c).0 == NO_REQUEST {
        BodyNotDone(HandleLine(c).1, LINE_OPEN);
      }
    } else if ParseLine(c).0 == LINE_OK {
      LineEndsAtPair(c);
      var d := ParseLine(c).1;
      BodyHeld(d);
      if HandleLine(d).0 == NO_REQUEST {
        BodyNotDone(HandleLine(d).1, LINE_OPEN);
      }
    } else {
      NoLineKeepsBuffer(c);
    }
  }

  lemma BodyHeld(c: Conn)
    requires Bounds(c) && c.state == CONTENT && ReadIdx(c) < c.contentLength + |c.done|
    ensures HandleLine(c).0 != GET_REQUEST
    ensures HandleLine(c).0 == NO_REQUEST ==> HandleLine(c).1 == c.(startLine := |c.done|)
  {
  }

  /** A request with a body is complete when all of it has arrived, and m_checked_idx then
      stands where the body starts. */
  lemma BodyComplete(h: Conn)
    requires Inv(h) && h.state == CONTENT && ProcessRead(h).0 == GET_REQUEST
    ensures h.contentLength + |h.done| <= ReadIdx(h) && |ProcessRead(h).1.done| == |h.done|
  {
    if ReadIdx(h) < h.contentLength + |h.done| {
      BodyNotDone(h, LINE_OK);
    }
  }

  lemma {:induction false} FeedGrows(c: Conn, chunks: seq<seq<char>>)
    requires Inv(c) && chunks != [] && ReadIdx(c) + |Flatten(chunks)| <= READ_BUFFER_SIZE
    ensures |c.done| <= |Feed(c, chunks).1.done|
    decreases |chunks|
  {
    hide ProcessRead, Receive, Flatten;
    ReceiveInTwo(c, chunks);
    var (code, d) := ProcessRead(Receive(c, chunks[0]));
    assert |Receive(c, chunks[0]).done| == |c.done| by { ReceiveDone(c, chunks[0]); }
    if code == NO_REQUEST && |chunks| > 1 {
      FeedGrows(d, chunks[1..]);
    }
  }

  lemma ReceiveDone(c: Conn, a: seq<char>)
    ensures Receive(c, a).done == c.done && Receive(c, a).state == c.state && Receive(c, a).startLine == c.startLine
    ensures Receive(c, a).contentLength == c.contentLength && Receive(c, a).rest == c.rest + a
  {
  }

  /** What a harmful boundary leaves: m_checked_idx inside the body, and the request pending. */
  lemma HarmfulScans(c1: Conn, rest: seq<char>)
    requires Inv(c1) && ReadIdx(c1) + |rest| <= READ_BUFFER_SIZE && (c1.state == CONTENT ==> c1.startLine == |c1.done|)
    requires ProcessRead(c1).0 == NO_REQUEST && !HarmlessBoundary(c1)
    ensures var h := HeaderPhase(c1).conn;
            && HeaderPhase(c1).AtBody? && h.state == CONTENT && h.contentLength > 0
            && HeaderPhase(Receive(c1, rest)) == AtBody(Receive(h, rest))
            && ProcessRead(Receive(c1, rest)) == ProcessRead(Receive(h, rest))
            && ProcessRead(c1) == ProcessRead(h) && |ProcessRead(c1).1.done| > |h.done|
  {
    hide ProcessRead, HeaderPhase, BodyUnscanned, Receive, EndsInCR;
    LoopIsPhases(c1);
    PhaseExtends(c1, rest);
    StartAtBody(c1);
    var h := HeaderPhase(c1).conn;
    BodyScanMoves(h);
    BodyPending(h);
    ReceiveKeepsInv(c1, rest);
    LoopIsPhases(Receive(c1, rest));
  }

  lemma HarmlessStays(c1: Conn)
    requires Inv(c1) && ProcessRead(c1).0 == NO_REQUEST && HarmlessBoundary(c1)
    ensures var d := ProcessRead(c1).1; d.state == CONTENT ==> d.startLine == |d.done|
  {
    hide ProcessRead, BodyUnscanned;
    LoopIsPhases(c1);
    match HeaderPhase(c1) {
      case Done(_, _) =>
      case AtBody(h) => UnscannedBodyStays(h);
    }
  }

  /** After any harmful boundary m_checked_idx is ahead of where one call leaves it. */
  lemma {:induction false} HarmfulIsAhead(c: Conn, chunks: seq<seq<char>>)
    requires Inv(c) && chunks != [] && ReadIdx(c) + |Flatten(chunks)| <= READ_BUFFER_SIZE
    requires c.state == CONTENT ==> c.startLine == |c.done|
    requires ProcessRead(Receive(c, Flatten(chunks))).0 == GET_REQUEST && !HarmlessBoundaries(c, chunks)
    ensures |Feed(c, chunks).1.done| > |ProcessRead(Receive(c, Flatten(chunks))).1.done|
    decreases |chunks|
  {
    hide ProcessRead, HeaderPhase, HarmlessBoundary, Receive, Flatten;
    var c1, rest := Receive(c, chunks[0]), Flatten(chunks[1..]);
    ReceiveInTwo(c, chunks);
    ReceiveDone(c, chunks[0]);
    var d := ProcessRead(c1).1;
    if HarmlessBoundary(c1) {
      ChunkingAgrees(c1, rest);
      HarmlessStays(c1);
      HarmfulIsAhead(d, chunks[1..]);
    } else {
      HarmfulScans(c1, rest);
      var h := HeaderPhase(c1).conn;
      ReceiveKeepsInv(h, rest);
      ReceiveDone(h, rest);
      BodyComplete(Receive(h, rest));
      FeedGrows(d, chunks[1..]);
    }
  }

  lemma CompleteInRange(whole: Conn)
    requires Inv(whole) && ProcessRead(whole).0 == GET_REQUEST
    ensures LengthInRange(whole)
  {
    hide ProcessRead, HeaderPhase;
    LoopIsPhases(whole);
    if HeaderPhase(whole).AtBody? {
      BodyComplete(HeaderPhase(whole).conn);
    }
  }

  /** When one call completes the request, the pieces leave the same answer and the same
      parser, all of them having been needed, exactly when every boundary is harmless. */
  lemma PiecesAgreeExactly(c: Conn, chunks: seq<seq<char>>)
    requires Inv(c) && chunks != [] && ReadIdx(c) + |Flatten(chunks)| <= READ_BUFFER_SIZE
    requires c.state == CONTENT ==> c.startLine == |c.done|
    requires ProcessRead(Receive(c, Flatten(chunks))).0 == GET_REQUEST
    ensures var (code, d, left) := Feed(c, chunks);
            left == [] ==>
              (HarmlessBoundaries(c, chunks) <==> (code, d) == ProcessRead(Receive(c, Flatten(chunks))))
  {
    hide ProcessRead, HeaderPhase, HarmlessBoundaries, Flatten, LengthInRange, Feed, Receive;
    assert Inv(Receive(c, Flatten(chunks))) by { ReceiveKeepsInv(c, Flatten(chunks)); }
    if HarmlessBoundaries(c, chunks) {
      CompleteInRange(Receive(c, Flatten(chunks)));
      AnyChunkingAgrees(c, chunks);
    } else {
      HarmfulIsAhead(c, chunks);
    }
  }

  /** `whole` is read exactly to the end of its body. */
  ghost predicate EndsWithBody(whole: Conn)
    requires Inv(whole)
  {
    && ProcessRead(whole).0 == GET_REQUEST && HeaderPhase(whole).AtBody?
    && ReadIdx(whole) == |HeaderPhase(whole).conn.done| + HeaderPhase(whole).conn.contentLength
  }

  lemma {:induction false} HarmfulNeverCompletes(c: Conn, chunks: seq<seq<char>>)
    requires Inv(c) && chunks != [] && ReadIdx(c) + |Flatten(chunks)| <= READ_BUFFER_SIZE
    requires c.state == CONTENT ==> c.startLine == |c.done|
    requires EndsWithBody(Receive(c, Flatten(chunks))) && !HarmlessBoundaries(c, chunks)
    ensures var (code, _, left) := Feed(c, chunks); code == NO_REQUEST && left == []
    decreases |chunks|
  {
    hide ProcessRead, HeaderPhase, HarmlessBoundary, Receive, Flatten;
    var c1, rest := Receive(c, chunks[0]), Flatten(chunks[1..]);
    ReceiveInTwo(c, chunks);
    ReceiveDone(c, chunks[0]);
    var d := ProcessRead(c1).1;
    if HarmlessBoundary(c1) {
      ChunkingAgrees(c1, rest);
      HarmlessStays(c1);
      HarmfulNeverCompletes(d, chunks[1..]);
    } else {
      HarmfulScans(c1, rest);
      var h := HeaderPhase(c1).conn;
      ReceiveKeepsInv(h, rest);
      ReceiveDone(h, rest);
      BodyComplete(Receive(h, rest));
      BodyPending(h);
      PendingKeepsLength(h);
      StallsOn(d, chunks[1..]);
    }
  }

  lemma PendingKeepsLength(h: Conn)
    requires Inv(h) && h.state == CONTENT && h.contentLength <= LENGTH_LIMIT && ReadIdx(h) < h.contentLength + |h.done|
    ensures var d := ProcessRead(h).1; d.state == CONTENT && d.contentLength == h.contentLength
  {
    BodyStalls(h, LINE_OK);
  }

  /** Pieces that end with the body complete the request exactly when every boundary is
      harmless; otherwise none of them does. */
  lemma CompleteIffHarmless(c: Conn, chunks: seq<seq<char>>)
    requires Inv(c) && chunks != [] && ReadIdx(c) + |Flatten(chunks)| <= READ_BUFFER_SIZE
    requires c.state == CONTENT ==> c.startLine == |c.done|
    requires EndsWithBody(Receive(c, Flatten(chunks)))
    ensures Feed(c, chunks).0 == if HarmlessBoundaries(c, chunks) then GET_REQUEST else NO_REQUEST
  {
    hide ProcessRead, HeaderPhase, HarmlessBoundaries, Flatten, LengthInRange, Feed, Receive;
    assert Inv(Receive(c, Flatten(chunks))) by { ReceiveKeepsInv(c, Flatten(chunks)); }
    if HarmlessBoundaries(c, chunks) {
      CompleteInRange(Receive(c, Flatten(chunks)));
      AnyChunkingAgrees(c, chunks);
    } else {
      HarmfulNeverCompletes(c, chunks);
    }
  }

  // --- the same, by positions ----------------------------------------------------------

  lemma {:induction false} PhaseGrows(c: Conn)
    requires Inv(c) && HeaderPhase(c).AtBody?
    ensures |c.done| <= |HeaderPhase(c).conn.done|
    decreases |c.rest|
  {
    hide HandleLine, ParseLine;
    if c.state != CONTENT {
      LineEndsAtPair(c);
      PhaseGrows(HandleLine(ParseLine(c).1).1);
    }
  }

  /** A line that only later bytes complete ends among them. */
  lemma LineEndsLater(c: Conn, b: seq<char>)
    requires Inv(c) && ReadIdx(c) + |b| <= READ_BUFFER_SIZE
    requires ParseLine(c).0 != LINE_OK && ParseLine(Receive(c, b)).0 == LINE_OK
    ensures |ParseLine(Receive(c, b)).1.done| > ReadIdx(c)
  {
    hide ParseLine, First;
    var x := c.rest;
    var k := First(x, 0, CrOrLf);
    SearchExtends(x, b);
    StatusAtFirst(c);
    StatusAtFirst(Receive(c, b));
    PairTaken(Receive(c, b));
    assert forall i :: 0 <= i < |x| ==> (x + b)[i] == x[i];
  }

  /** Headers that still wait for bytes end behind those that are there. */
  lemma {:induction false} BodyStartsLater(c: Conn, b: seq<char>)
    requires Inv(c) && ReadIdx(c) + |b| <= READ_BUFFER_SIZE
    requires HeaderPhase(c).Done? && HeaderPhase(Receive(c, b)).AtBody?
    ensures |HeaderPhase(Receive(c, b)).conn.done| > ReadIdx(c)
    decreases |c.rest|
  {
    hide HandleLine, ParseLine;
    var w := Receive(c, b);
    if ParseLine(c).0 == LINE_OK {
      FoundLineExtends(c, b);
      LineEndsAtPair(c);
      var d := ParseLine(c).1;
      LineWorkExtends(d, b);
      BodyStartsLater(HandleLine(d).1, b);
    } else {
      LineEndsLater(c, b);
      LineEndsAtPair(w);
      PhaseGrows(HandleLine(ParseLine(w).1).1);
    }
  }

  /** The body that the headers announce, as far as it has been read, does not start with
      a CR or LF. */
  ghost predicate PlainStart(whole: Conn)
    requires Inv(whole)
  {
    match HeaderPhase(whole)
    case Done(_, _) => true
    case AtBody(h) => h.rest == [] || !CrOrLf(h.rest[0])
  }

  /** A harmless first boundary, or one behind which the request has an answer, lies outside
      the body, and with an answer so does every later one. */
  lemma FirstCutOutside(c1: Conn, rest: seq<char>, position: nat)
    requires Inv(c1) && ReadIdx(c1) + |rest| <= READ_BUFFER_SIZE
    requires PlainStart(Receive(c1, rest)) && LengthInRange(Receive(c1, rest))
    requires ProcessRead(c1).0 == NO_REQUEST ==> HarmlessBoundary(c1)
    requires position == ReadIdx(c1) || (position > ReadIdx(c1) && ProcessRead(c1).0 != NO_REQUEST)
    ensures !InsideBody(Receive(c1, rest), position)
  {
    hide ProcessRead, HeaderPhase;
    LoopIsPhases(c1);
    PhaseExtends(c1, rest);
    match HeaderPhase(c1) {
      case Done(code, _) =>
        if code == NO_REQUEST && HeaderPhase(Receive(c1, rest)).AtBody? {
          BodyStartsLater(c1, rest);
        }
      case AtBody(h) =>
        if ReadIdx(h) < h.contentLength + |h.done| {
          ReceiveDone(h, rest);
          StillPending(h);
        }
    }
  }

  lemma StillPending(h: Conn)
    requires Inv(h) && h.state == CONTENT && h.contentLength <= LENGTH_LIMIT && ReadIdx(h) < h.contentLength + |h.done|
    ensures ProcessRead(h).0 == NO_REQUEST
  {
    BodyStalls(h, LINE_OK);
  }

  lemma {:induction false} HarmlessCutsOutside(c: Conn, chunks: seq<seq<char>>)
    requires Inv(c) && chunks != [] && ReadIdx(c) + |Flatten(chunks)| <= READ_BUFFER_SIZE
    requires PlainStart(Receive(c, Flatten(chunks))) && LengthInRange(Receive(c, Flatten(chunks)))
    requires HarmlessBoundaries(c, chunks)
    ensures CutsOutsideBody(c, chunks)
    decreases |chunks|
  {
    hide ProcessRead, HeaderPhase, HarmlessBoundary, Receive, Flatten, InsideBody;
    var c1, rest := Receive(c, chunks[0]), Flatten(chunks[1..]);
    ReceiveInTwo(c, chunks);
    ReceiveKeepsInv(c, Flatten(chunks));
    var (code, d) := ProcessRead(c1);
    if code == NO_REQUEST && |chunks| > 1 {
      ReceiveKeepsInv(d, rest);
      ChunkingAgrees(c1, rest);
      HarmlessCutsOutside(d, chunks[1..]);
    }
    forall i | 0 < i < |chunks|
      ensures !InsideBody(Receive(c, Flatten(chunks)), ReadIdx(c) + |Flatten(chunks[..i])|)
    {
      FlattenPrefix(chunks, i);
      if i > 1 && code == NO_REQUEST {
        assert !InsideBody(Receive(d, rest), ReadIdx(d) + |Flatten(chunks[1..][..i - 1])|);
        SameInside(Receive(d, rest), Receive(c1, rest), ReadIdx(c) + |Flatten(chunks[..i])|);
      } else {
        NoneFlat(chunks);
        FirstCutOutside(c1, rest, ReadIdx(c) + |Flatten(chunks[..i])|);
      }
    }
  }

  lemma NoneFlat(chunks: seq<seq<char>>)
    requires chunks != []
    ensures Flatten(chunks[1..][..0]) == []
  {
  }

  lemma SameInside(x: Conn, y: Conn, position: nat)
    requires Inv(x) && Inv(y) && HeaderPhase(x) == HeaderPhase(y)
    ensures InsideBody(x, position) <==> InsideBody(y, position)
  {
    hide HeaderPhase;
  }

  /** For a body that starts with no CR or LF, the harmless boundaries are those outside it. */
  lemma HarmlessIffOutside(c: Conn, chunks: seq<seq<char>>)
    requires Inv(c) && chunks != [] && ReadIdx(c) + |Flatten(chunks)| <= READ_BUFFER_SIZE
    requires c.state == CONTENT ==> c.startLine == |c.done|
    requires PlainStart(Receive(c, Flatten(chunks))) && LengthInRange(Receive(c, Flatten(chunks)))
    ensures HarmlessBoundaries(c, chunks) <==> CutsOutsideBody(c, chunks)
  {
    hide *;
    if CutsOutsideBody(c, chunks) {
      CutsAreHarmless(c, chunks);
    }
    if HarmlessBoundaries(c, chunks) {
      HarmlessCutsOutside(c, chunks);
    }
  }

  /** Pieces that end with a body complete its request exactly when none of them ends
      strictly inside the body; otherwise it is not seen to be complete. */
  lemma CompleteIffOutside(c: Conn, chunks: seq<seq<char>>)
    requires Inv(c) && chunks != [] && ReadIdx(c) + |Flatten(chunks)| <= READ_BUFFER_SIZE
    requires c.state == CONTENT ==> c.startLine == |c.done|
    requires EndsWithBody(Receive(c, Flatten(chunks))) && PlainStart(Receive(c, Flatten(chunks)))
    ensures Feed(c, chunks).0 == if CutsOutsideBody(c, chunks) then GET_REQUEST else NO_REQUEST
  {
    hide ProcessRead, HeaderPhase, HarmlessBoundaries, CutsOutsideBody, Flatten, LengthInRange, PlainStart, Feed;
    hide Receive;
    assert Inv(Receive(c, Flatten(chunks))) by { ReceiveKeepsInv(c, Flatten(chunks)); }
    CompleteInRange(Receive(c, Flatten(chunks)));
    CompleteIffHarmless(c, chunks);
    HarmlessIffOutside(c, chunks);
  }
}
