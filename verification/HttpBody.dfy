/** The body of a request as do_request finds it: a C string in the read buffer, cut off by
    the NUL of parse_content from whatever else has been read. */
module HttpBody {
  import opened CStrings
  import opened HttpParser
  import opened HttpChunking
  import opened Wrappers

  /** A body that has arrived, with `more` bytes behind it: m_string points to it, the byte
      behind it is NUL, and no other byte of the buffer changes. */
  lemma BodyTerminated(h: Conn, body: seq<char>, more: seq<char>)
    requires Inv(h) && h.state == CONTENT && h.startLine == |h.done|
    requires h.rest == body + more && h.contentLength == |body| && |h.done| + |body| < READ_BUFFER_SIZE
    ensures var (code, d) := ProcessRead(h);
            && code == GET_REQUEST && |d.rest| == |h.rest| && d == h.(rest := d.rest, body := Some(|h.done|))
            && Memory(d) == Memory(h)[|h.done| + |body| := NUL]
            && Memory(d)[|h.done|..][..|body| + 1] == body + [NUL]
            && (NUL !in body ==> CStr(Memory(d), |h.done|) == body)
  {
    assert ReadIdx(h) <= READ_BUFFER_SIZE;
    hide *;
    var at, end := |h.done|, |h.done| + |body|;
    BodyInMemory(h, body, more);
    BodyDone(h);
    var c := h.(body := Some(at));
    SameMemory(h, c);
    NulWritten(c, end);
    var m := Memory(ProcessRead(h).1);
    assert m[at..at + |body|] == body;
    assert m[at..][..|body| + 1] == body + [NUL];
    if NUL !in body {
      CStrIs(m, at, body);
    }
  }

  lemma BodyDone(h: Conn)
    requires Inv(h) && h.state == CONTENT && h.startLine == |h.done|
    requires 0 <= h.contentLength && h.contentLength + |h.done| <= ReadIdx(h)
    requires |h.done| + h.contentLength < READ_BUFFER_SIZE
    ensures ProcessRead(h) == (GET_REQUEST, PutNul(h.(body := Some(|h.done|)), |h.done| + h.contentLength))
  {
    hide PutNul;
    assert HandleLine(h).0 == GET_REQUEST;
    LoopOnBody(h);
    assert h.(startLine := |h.done|) == h;
    PutNulKeepsBody(h, |h.done| + h.contentLength);
  }

  lemma PutNulKeepsBody(h: Conn, end: nat)
    ensures PutNul(h, end).(body := Some(|h.done|)) == PutNul(h.(body := Some(|h.done|)), end)
  {
  }

  lemma BodyInMemory(h: Conn, body: seq<char>, more: seq<char>)
    requires ReadIdx(h) <= READ_BUFFER_SIZE && h.rest == body + more && |h.done| + |body| < READ_BUFFER_SIZE
    ensures ReadIdx(h) == |h.done| + |body| + |more| && Memory(h)[|h.done|..|h.done| + |body|] == body
  {
  }

  lemma SameMemory(h: Conn, c: Conn)
    requires ReadIdx(h) <= READ_BUFFER_SIZE && c.done == h.done && c.rest == h.rest
    ensures ReadIdx(c) == ReadIdx(h) && Memory(c) == Memory(h)
  {
  }

  lemma NulWritten(c: Conn, end: nat)
    requires ReadIdx(c) <= READ_BUFFER_SIZE && |c.done| <= end < READ_BUFFER_SIZE
    ensures Memory(PutNul(c, end)) == Memory(c)[end := NUL]
    ensures PutNul(c, end) == c.(rest := PutNul(c, end).rest) && |PutNul(c, end).rest| == |c.rest|
  {
  }

  /** Any head that announces a body, that body, and any bytes behind it in the same buffer:
      the request is complete, and its body is read to its end and no further. */
  lemma BodyOfRequest(head: seq<char>, body: seq<char>, more: seq<char>)
    requires |head| + |body| + |more| <= READ_BUFFER_SIZE && |head| + |body| < READ_BUFFER_SIZE
    requires var p := HeaderPhase(Receive(Fresh(), head));
             p.AtBody? && p.conn.rest == [] && p.conn.contentLength == |body|
    ensures var h := HeaderPhase(Receive(Fresh(), head)).conn;
            var (code, d) := ProcessRead(Receive(Fresh(), head + body + more));
            && code == GET_REQUEST && |h.done| == |head| && d.done == h.done
            && d == h.(rest := d.rest, body := Some(|head|)) && ReadIdx(d) <= READ_BUFFER_SIZE
            && Memory(d)[|head|..][..|body| + 1] == body + [NUL]
            && (NUL !in body ==> CStr(Memory(d), |head|) == body)
  {
    hide HeaderPhase, ProcessRead, Receive, Memory, CStr;
    var c := Receive(Fresh(), head);
    ReceiveKeepsInv(Fresh(), head);
    ReceiveDone(Fresh(), head);
    assert head + body + more == head + (body + more);
    ReceiveTwice(Fresh(), head, body + more);
    StartAtBody(c);
    PhaseExtends(c, body + more);
    var h := HeaderPhase(c).conn;
    ReceiveKeepsInv(h, body + more);
    ReceiveKeepsInv(Fresh(), head + (body + more));
    ReceiveDone(h, body + more);
    ReceiveOthers(h, body + more);
    LoopIsPhases(Receive(Fresh(), head + (body + more)));
    BodyTerminated(Receive(h, body + more), body, more);
  }

  lemma ReceiveOthers(h: Conn, b: seq<char>)
    ensures Receive(h, b) == h.(rest := h.rest + b)
  {
  }
}
