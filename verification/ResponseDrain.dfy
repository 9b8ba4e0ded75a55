/** Sending header and file through two iovecs: what is on the wire and what the
    iovecs still describe, for the three versions of the loop in the repository. */
module ResponseDrain {
  import opened CStrings
  import opened Wrappers

  /** How a short write inside the header is booked: by the running total
      (Webserver), by this write (chap.5), or never, the buffer being written whole
      (Webserver_asio). */
  datatype Version = Webserver | Chap5 | Asio

  /** `base` counts from m_write_buf for the first iovec, from m_file_address for
      the second. */
  datatype Iov = Iov(base: int, len: int)

  datatype Out = Out(
    header: seq<char>,
    file: seq<char>,
    iv0: Iov,
    iv1: Iov,
    ivCount: nat,
    toSend: int,
    haveSent: int,
    wire: seq<char>)

  function Message(o: Out): seq<char> { o.header + o.file }

  /** As process_write leaves it: two iovecs for a file, one for a form. */
  function Start(header: seq<char>, file: seq<char>, ivCount: nat, iv1: Iov): Out {
    Out(header, file, Iov(0, |header|), if ivCount == 2 then Iov(0, |file|) else iv1,
        ivCount, |header| + |file|, 0, [])
  }

  function Slice(b: seq<char>, v: Iov): Option<seq<char>> {
    if 0 <= v.base && 0 <= v.len && v.base + v.len <= |b| then Some(b[v.base..v.base + v.len]) else None
  }

  /** The bytes the iovecs describe; None when they point outside header and file. */
  function Described(o: Out): Option<seq<char>> {
    var first, second := Slice(o.header, o.iv0), Slice(o.file, o.iv1);
    if o.ivCount == 1 then first
    else if first.None? || second.None? then None
    else Some(first.value + second.value)
  }

  /** Sent ++ described = header ++ file. */
  ghost predicate Exact(o: Out) {
    Described(o).Some? && o.wire + Described(o).value == Message(o)
  }

  /** The counters and iovecs after writev has returned `n`. */
  function Book(v: Version, o: Out, n: nat): Out {
    var have := o.haveSent + n;
    var left := o.toSend - n;
    var p := o.(haveSent := have, toSend := left);
    if have >= o.iv0.len then
      p.(iv0 := o.iv0.(len := 0), iv1 := Iov(have - |o.header|, left))
    else
      p.(iv0 := Iov(have, o.iv0.len - if v == Webserver then have else n))
  }

  /** One writev that takes the first `n` described bytes. */
  function Sent(v: Version, o: Out, n: nat): (p: Out)
    requires Described(o).Some? && n <= |Described(o).value|
    ensures p.haveSent + p.toSend == o.haveSent + o.toSend && p.toSend == o.toSend - n
    ensures Message(p) == Message(o) && p.ivCount == o.ivCount
  {
    Book(v, o, n).(wire := o.wire + Described(o).value[..n])
  }

  /** The condition under which the booking of this write is right, from numbers the
      caller has before the call and the value returned. */
  predicate WellBooked(v: Version, headerLen: nat, have: int, n: nat) {
    match v
    case Webserver => !(0 < have < headerLen && have + n < headerLen)
    case Chap5 => !(headerLen - have <= have + n < headerLen)
    case Asio => true
  }

  /** The iovecs describe exactly the unsent bytes, by position. */
  ghost predicate InStep(o: Out) {
    && 0 <= o.haveSent && 0 <= o.toSend && o.haveSent + o.toSend == |Message(o)|
    && o.wire == Message(o)[..o.haveSent]
    && (o.ivCount == 1 || o.ivCount == 2) && (o.ivCount == 1 ==> o.file == [])
    && (if o.haveSent < |o.header| then
          o.iv0 == Iov(o.haveSent, |o.header| - o.haveSent) && (o.ivCount == 2 ==> o.iv1 == Iov(0, |o.file|))
        else
          o.iv0.len == 0 && 0 <= o.iv0.base <= |o.header| &&
          (o.ivCount == 2 ==> o.iv1 == Iov(o.haveSent - |o.header|, o.toSend)))
  }

  lemma StartInStep(header: seq<char>, file: seq<char>, ivCount: nat, iv1: Iov)
    requires ivCount == 2 || (ivCount == 1 && file == [])
    ensures var o := Start(header, file, ivCount, iv1);
            InStep(o) && o.toSend == |Message(o)| && Message(o) == header + file
  {
  }

  lemma TailOfMessage(h: seq<char>, f: seq<char>, k: nat)
    requires k <= |h| + |f|
    ensures (h + f)[k..] == if k < |h| then h[k..] + f else f[k - |h|..]
  {
  }

  lemma SliceToEnd(b: seq<char>, k: nat)
    requires k <= |b|
    ensures Slice(b, Iov(k, |b| - k)).Some? && Slice(b, Iov(k, |b| - k)).value == b[k..]
  {
  }

  /** In step, the iovecs describe the message from haveSent on. */
  lemma InStepDescribes(o: Out)
    requires InStep(o)
    ensures Described(o).Some? && Described(o).value == Message(o)[o.haveSent..]
  {
    var h, f, k := o.header, o.file, o.haveSent;
    TailOfMessage(h, f, k);
    SliceToEnd(f, if k < |h| then 0 else k - |h|);
    if k < |h| {
      SliceToEnd(h, k);
      assert f[0..] == f;
      assert f == [] ==> h[k..] + f == h[k..];
    } else {
      assert Slice(h, o.iv0).value == [];
    }
    hide Slice;
    assert Described(o).Some?;
    assert Described(o).value == if k < |h| then h[k..] + f else f[k - |h|..];
  }

  lemma InStepIsExact(o: Out)
    requires InStep(o)
    ensures Exact(o) && |Described(o).value| == o.toSend
  {
    hide Described;
    InStepDescribes(o);
    assert Message(o)[..o.haveSent] + Message(o)[o.haveSent..] == Message(o);
  }

  /** One write keeps the iovecs in step iff it is well booked; otherwise the next
      loop head no longer describes the unsent bytes. */
  lemma OneWrite(v: Version, o: Out, n: nat)
    requires InStep(o) && v != Asio && n <= o.toSend
    ensures Described(o).Some? && n <= |Described(o).value|
    ensures if WellBooked(v, |o.header|, o.haveSent, n) then InStep(Sent(v, o, n))
            else !Exact(Sent(v, o, n))
  {
    InStepIsExact(o);
    InStepDescribes(o);
    hide Described;
    var p := Sent(v, o, n);
    assert p.wire == Message(o)[..p.haveSent];
    if !WellBooked(v, |o.header|, o.haveSent, n) {
      Misbooked(v, o, n);
    }
  }

  /** A misbooked write leaves too few bytes described, or points outside the file. */
  lemma Misbooked(v: Version, o: Out, n: nat)
    requires InStep(o) && v != Asio && n <= o.toSend
    requires Described(o).Some? && n <= |Described(o).value|
    requires !WellBooked(v, |o.header|, o.haveSent, n)
    ensures var p := Sent(v, o, n);
            !Exact(p) && (Described(p).None? || |Described(p).value| < p.toSend)
  {
    var p := Sent(v, o, n);
    assert |o.wire + Described(o).value[..n]| == p.haveSent;
    assert Described(p).Some? ==> |Described(p).value| < p.toSend;
  }

  // --- whole runs ---------------------------------------------------------------

  /** Every loop head of the run with these writev results is exact. */
  ghost predicate AlwaysExact(v: Version, o: Out, results: seq<nat>)
    decreases |results|
  {
    && Exact(o)
    && (results != [] ==>
          && results[0] <= |Described(o).value|
          && AlwaysExact(v, Sent(v, o, results[0]), results[1..]))
  }

  /** Every write of the run is well booked: a condition on the header length and the
      writev results alone. */
  predicate AllWellBooked(v: Version, headerLen: nat, have: int, results: seq<nat>)
    decreases |results|
  {
    results != [] ==>
      && WellBooked(v, headerLen, have, results[0])
      && AllWellBooked(v, headerLen, have + results[0], results[1..])
  }

  function Sum(results: seq<nat>): nat {
    if results == [] then 0 else results[0] + Sum(results[1..])
  }

  lemma SentCounts(v: Version, o: Out, n: nat)
    requires Described(o).Some? && n <= |Described(o).value|
    ensures var p := Sent(v, o, n);
            p.header == o.header && p.haveSent == o.haveSent + n && p.toSend == o.toSend - n
  {
    hide Described;
  }

  lemma {:induction false} RunFrom(v: Version, o: Out, results: seq<nat>)
    requires InStep(o) && v != Asio && Sum(results) <= o.toSend
    ensures AlwaysExact(v, o, results) <==> AllWellBooked(v, |o.header|, o.haveSent, results)
    decreases |results|
  {
    hide InStep, Exact, Described, Sent, WellBooked;
    InStepIsExact(o);
    if results != [] {
      OneWrite(v, o, results[0]);
      SentCounts(v, o, results[0]);
      if WellBooked(v, |o.header|, o.haveSent, results[0]) {
        RunFrom(v, Sent(v, o, results[0]), results[1..]);
      }
    }
  }

  /** Once such a run has sent everything, the wire holds the message. */
  lemma ExactEnd(o: Out)
    requires Exact(o) && Bounded(o) && o.toSend == 0
    ensures o.wire == Message(o)
  {
    assert Described(o).value == [];
  }

  /** How many bytes the iovecs ask writev to send, wherever they point. */
  function Asked(o: Out): int {
    if o.ivCount == 1 then o.iv0.len else o.iv0.len + o.iv1.len
  }

  /** What holds however the kernel answers: never more bytes asked for than left. */
  ghost predicate Bounded(o: Out) {
    && 0 <= o.haveSent && (o.ivCount == 1 || o.ivCount == 2)
    && Asked(o) <= o.toSend && 0 <= o.iv0.len && 0 <= o.toSend
  }

  /** bytes_have_send + bytes_to_send never changes, and each positive writev brings the end
      nearer, whether or not the booking is right and wherever the iovecs point. */
  lemma EveryWriteProgresses(v: Version, o: Out, n: nat)
    requires Bounded(o) && n <= Asked(o)
    ensures var p := Book(v, o, n);
            Bounded(p) && p.haveSent + p.toSend == o.haveSent + o.toSend && 0 <= p.toSend == o.toSend - n
  {
  }

  lemma AskedIsDescribed(o: Out)
    requires Described(o).Some?
    ensures |Described(o).value| == Asked(o)
  {
  }

  /** `write` drains exactly: over any run of writev results, sent ++ described is
      header ++ file at every loop head iff every write is well booked, and a run that is
      and takes all bytes leaves header ++ file on the wire.  For the Webserver version
      that is: no write that starts and ends strictly inside the header, once a header
      byte is out. */
  lemma DrainsExactly(v: Version, header: seq<char>, file: seq<char>, ivCount: nat, iv1: Iov, results: seq<nat>)
    requires v != Asio && (ivCount == 2 || (ivCount == 1 && file == []))
    requires Sum(results) <= |header| + |file|
    ensures var o := Start(header, file, ivCount, iv1);
            && (AlwaysExact(v, o, results) <==> AllWellBooked(v, |header|, 0, results))
            && (AlwaysExact(v, o, results) && Sum(results) == |header| + |file| ==>
                  EndOf(v, o, results).wire == header + file)
  {
    var o := Start(header, file, ivCount, iv1);
    RunFrom(v, o, results);
    if AlwaysExact(v, o, results) {
      EndOfRun(v, o, results);
      if Sum(results) == |header| + |file| {
        ExactEnd(EndOf(v, o, results));
      }
    }
  }

  ghost function EndOf(v: Version, o: Out, results: seq<nat>): Out
    requires AlwaysExact(v, o, results)
    decreases |results|
  {
    if results == [] then o else EndOf(v, Sent(v, o, results[0]), results[1..])
  }

  lemma {:induction false} EndOfRun(v: Version, o: Out, results: seq<nat>)
    requires AlwaysExact(v, o, results) && Bounded(o)
    ensures var p := EndOf(v, o, results);
            Exact(p) && Bounded(p) && p.toSend == o.toSend - Sum(results) && Message(p) == Message(o)
    decreases |results|
  {
    if results != [] {
      hide Described, Exact;
      AskedIsDescribed(o);
      EveryWriteProgresses(v, o, results[0]);
      EndOfRun(v, Sent(v, o, results[0]), results[1..]);
    }
  }

  /** The smallest failing run: two one-byte writes into any header of three bytes. */
  lemma TwoShortWritesBreak(header: seq<char>, file: seq<char>)
    requires |header| >= 3
    ensures !AlwaysExact(Webserver, Start(header, file, 2, Iov(0, 0)), [1, 1])
  {
    DrainsExactly(Webserver, header, file, 2, Iov(0, 0), [1, 1]);
    assert [1, 1][1..] == [1];
    assert !AllWellBooked(Webserver, |header|, 1, [1]);
  }

  // --- one call of write ------------------------------------------------------------

  const EAGAIN: int := -1

  datatype Outcome = Idle | Later | Broken | Finished

  /** The kernel never takes more bytes than the iovecs describe. */
  ghost predicate Possible(v: Version, o: Out, results: seq<int>)
    decreases |results|
  {
    results != [] && results[0] >= 0 ==>
      && Described(o).Some? && results[0] <= |Described(o).value|
      && (Sent(v, o, results[0]).toSend > 0 ==> Possible(v, Sent(v, o, results[0]), results[1..]))
  }

  /** The loop of write against the writev results; when they run out the socket is
      full. */
  ghost function WriteLoop(v: Version, o: Out, results: seq<int>): (r: (Out, Outcome))
    requires Possible(v, o, results)
    decreases |results|
  {
    if results == [] || results[0] == EAGAIN then (o, Later)
    else if results[0] < 0 then (o, Broken)
    else
      var p := Sent(v, o, results[0]);
      if p.toSend <= 0 then (p, Finished) else WriteLoop(v, p, results[1..])
  }

  /** The position of the first result that is an error, or |results|. */
  function FirstError(results: seq<int>): (k: nat)
    ensures k <= |results| && (k < |results| ==> results[k] < 0)
    ensures forall i :: 0 <= i < k ==> results[i] >= 0
    decreases |results|
  {
    if results == [] || results[0] < 0 then 0 else 1 + FirstError(results[1..])
  }

  function Total(results: seq<int>): int
    decreases |results|
  {
    if results == [] then 0 else results[0] + Total(results[1..])
  }

  lemma {:induction false} TotalGrows(results: seq<int>, k: nat)
    requires k <= |results| && forall i :: 0 <= i < k ==> results[i] >= 0
    ensures Total(results[..k]) >= 0
    ensures k > 0 ==> Total(results[..k]) == results[0] + Total(results[1..][..k - 1])
    decreases |results|
  {
    if k > 0 {
      TotalGrows(results[1..], k - 1);
      assert results[..k][1..] == results[1..][..k - 1];
    }
  }

  /** The bytes taken before the first error. */
  function TakenInAll(results: seq<int>): int { Total(results[..FirstError(results)]) }

  /** How a call ends, said of the results alone: it finishes iff the bytes taken before the
      first error are all that were left; otherwise it waits iff that error is EAGAIN or none
      has come, and gives up iff it is another. */
  ghost predicate EndsBy(results: seq<int>, toSend: int, outcome: Outcome) {
    var k := FirstError(results);
    && (outcome == Finished <==> k > 0 && TakenInAll(results) >= toSend)
    && (outcome == Later <==> outcome != Finished && (k == |results| || results[k] == EAGAIN))
    && (outcome == Broken <==> outcome != Finished && k < |results| && results[k] != EAGAIN)
  }

  lemma {:induction false} WriteEndsExactly(v: Version, o: Out, results: seq<int>)
    requires Possible(v, o, results)
    ensures var (p, outcome) := WriteLoop(v, o, results);
            && EndsBy(results, o.toSend, outcome)
            && (outcome == Finished ==> p.toSend <= 0)
            && (outcome != Finished ==> p.haveSent == o.haveSent + TakenInAll(results)
                                        && p.toSend == o.toSend - TakenInAll(results))
            && (FirstError(results) == 0 ==> p == o)
    decreases |results|
  {
    hide Described, Book, Slice;
    var k := FirstError(results);
    TotalGrows(results, k);
    if results != [] && results[0] >= 0 {
      var p := Sent(v, o, results[0]);
      if p.toSend > 0 {
        WriteEndsExactly(v, p, results[1..]);
      } else {
        TotalGrows(results[1..], k - 1);
      }
    }
  }

  /** The writev results a call consumes. */
  function Taken(toSend: int, results: seq<int>): seq<nat>
    decreases |results|
  {
    if results == [] || results[0] < 0 then []
    else if toSend - results[0] <= 0 then [results[0]]
    else [results[0]] + Taken(toSend - results[0], results[1..])
  }

  /** A call that starts in step and books every write well ends in step; one that
      finishes has sent the message. */
  lemma {:induction false} WriteLoopDrains(v: Version, o: Out, results: seq<int>)
    requires InStep(o) && v != Asio && Possible(v, o, results)
    requires AllWellBooked(v, |o.header|, o.haveSent, Taken(o.toSend, results))
    ensures var (p, outcome) := WriteLoop(v, o, results);
            InStep(p) && Message(p) == Message(o) && (outcome == Finished ==> p.wire == Message(o))
    decreases |results|
  {
    hide InStep, Exact, Described, Sent, Slice, WellBooked, Message;
    InStepIsExact(o);
    if results != [] && results[0] >= 0 {
      var n := results[0];
      var p := Sent(v, o, n);
      assert Taken(o.toSend, results)[0] == n;
      SentCounts(v, o, n);
      OneWrite(v, o, n);
      if p.toSend > 0 {
        assert Taken(o.toSend, results)[1..] == Taken(p.toSend, results[1..]);
        WriteLoopDrains(v, p, results[1..]);
      } else {
        InStepDone(p);
      }
    }
  }

  lemma InStepDone(o: Out)
    requires InStep(o) && o.toSend <= 0
    ensures o.wire == Message(o)
  {
    assert Message(o)[..|Message(o)|] == Message(o);
  }

  // --- any number of calls ------------------------------------------------------------

  ghost predicate PossibleCalls(v: Version, o: Out, calls: seq<seq<int>>)
    decreases |calls|
  {
    calls != [] ==>
      Possible(v, o, calls[0]) &&
      var (p, outcome) := WriteLoop(v, o, calls[0]);
      outcome == Later ==> PossibleCalls(v, p, calls[1..])
  }

  /** write called again each time the socket has room, until a call does not end for
      lack of it. */
  ghost function WriteCalls(v: Version, o: Out, calls: seq<seq<int>>): (Out, Outcome)
    requires PossibleCalls(v, o, calls)
    decreases |calls|
  {
    if calls == [] then (o, Later)
    else
      var (p, outcome) := WriteLoop(v, o, calls[0]);
      if outcome == Later then WriteCalls(v, p, calls[1..]) else (p, outcome)
  }

  /** Every write of every call is well booked, over the bytes sent by then. */
  predicate CallsWellBooked(v: Version, headerLen: nat, have: int, left: int, calls: seq<seq<int>>)
    decreases |calls|
  {
    calls != [] ==>
      var taken := Taken(left, calls[0]);
      && AllWellBooked(v, headerLen, have, taken)
      && CallsWellBooked(v, headerLen, have + Sum(taken), left - Sum(taken), calls[1..])
  }

  lemma {:induction false} LoopCounts(v: Version, o: Out, results: seq<int>)
    requires Possible(v, o, results)
    ensures var p := WriteLoop(v, o, results).0;
            && p.header == o.header && p.haveSent == o.haveSent + Sum(Taken(o.toSend, results))
            && p.toSend == o.toSend - Sum(Taken(o.toSend, results))
    decreases |results|
  {
    hide Described, Sent, Slice;
    if results != [] && results[0] >= 0 {
      var n := results[0];
      SentCounts(v, o, n);
      var p := Sent(v, o, n);
      assert Taken(o.toSend, results)[0] == n;
      if p.toSend > 0 {
        assert Taken(o.toSend, results)[1..] == Taken(p.toSend, results[1..]);
        LoopCounts(v, p, results[1..]);
      } else {
        assert Taken(o.toSend, results)[1..] == [];
      }
    }
  }

  /** Over any number of calls, each after the socket was full, a run whose writes are
      all well booked stays in step; when it finishes, the wire holds the message. */
  lemma {:induction false} WriteCallsDrain(v: Version, o: Out, calls: seq<seq<int>>)
    requires InStep(o) && v != Asio && PossibleCalls(v, o, calls)
    requires CallsWellBooked(v, |o.header|, o.haveSent, o.toSend, calls)
    ensures var (p, outcome) := WriteCalls(v, o, calls);
            InStep(p) && Message(p) == Message(o) && (outcome == Finished ==> p.wire == Message(o))
    decreases |calls|
  {
    hide InStep, Described, Taken, AllWellBooked, Message, WriteLoop, Possible;
    if calls != [] {
      WriteLoopDrains(v, o, calls[0]);
      LoopCounts(v, o, calls[0]);
      var (p, outcome) := WriteLoop(v, o, calls[0]);
      if outcome == Later {
        WriteCallsDrain(v, p, calls[1..]);
      }
    }
  }

  /** The bytes taken in all calls. */
  function TakenInCalls(calls: seq<seq<int>>): int {
    if calls == [] then 0 else TakenInAll(calls[0]) + TakenInCalls(calls[1..])
  }

  predicate FailsIn(results: seq<int>) {
    FirstError(results) < |results| && results[FirstError(results)] != EAGAIN
  }

  /** While the calls only wait, every byte taken in them is booked; they are given up only
      when one fails, and have finished when nothing is left. */
  lemma {:induction false} CallsEndExactly(v: Version, o: Out, calls: seq<seq<int>>)
    requires PossibleCalls(v, o, calls)
    ensures var (p, outcome) := WriteCalls(v, o, calls);
            && (outcome == Later ==> p.haveSent == o.haveSent + TakenInCalls(calls)
                                     && p.toSend == o.toSend - TakenInCalls(calls)
                                     && forall i :: 0 <= i < |calls| ==> !FailsIn(calls[i]))
            && (outcome == Broken ==> exists i :: 0 <= i < |calls| && FailsIn(calls[i]))
            && (outcome == Finished ==> p.toSend <= 0)
            && outcome != Idle
    decreases |calls|
  {
    hide Described, Book, Slice, WriteLoop, Possible, TakenInAll, FirstError;
    if calls != [] {
      WriteEndsExactly(v, o, calls[0]);
      var (p, outcome) := WriteLoop(v, o, calls[0]);
      if outcome == Later {
        CallsEndExactly(v, p, calls[1..]);
        assert forall i :: 0 < i < |calls| ==> calls[i] == calls[1..][i - 1];
        if WriteCalls(v, p, calls[1..]).1 == Broken {
          var i :| 0 <= i < |calls[1..]| && FailsIn(calls[1..][i]);
          assert FailsIn(calls[i + 1]);
        }
      } else {
        assert outcome == Broken ==> FailsIn(calls[0]);
      }
    }
  }

  // --- the full-buffer variant -------------------------------------------------------

  /** async_write_chunk picks the second buffer once the first is out, and the
      library writes all of it or reports an error. */
  function ChunkBuffer(o: Out): Option<seq<char>> {
    if o.haveSent >= o.iv0.len then Slice(o.file, o.iv1) else Slice(o.header, o.iv0)
  }

  /** After the buffer has been written whole. */
  function ChunkDone(o: Out): Out
    requires ChunkBuffer(o).Some?
  {
    var b := ChunkBuffer(o).value;
    Book(Asio, o, |b|).(wire := o.wire + b)
  }

  /** async_write_chunk and its handlers, for the error codes reported (true: none). */
  function ChunkRun(o: Out, ok: seq<bool>): Out
    decreases |ok|
  {
    if o.toSend <= 0 || ok == [] || !ok[0] || ChunkBuffer(o).None? then o else ChunkRun(ChunkDone(o), ok[1..])
  }

  lemma ChunkStep(o: Out)
    requires InStep(o) && o.toSend > 0 && (o.haveSent == 0 || o.haveSent >= |o.header|)
    requires o.ivCount == 1 ==> o.haveSent == 0
    ensures ChunkBuffer(o).Some?
    ensures var p := ChunkDone(o);
            && InStep(p) && p.haveSent >= |o.header| && Message(p) == Message(o)
            && p.header == o.header && p.file == o.file && p.ivCount == o.ivCount
            && (o.haveSent >= |o.header| ==> p.toSend == 0) && (o.ivCount == 1 ==> p.toSend == 0)
            && (o.haveSent < |o.header| ==> p.haveSent == |o.header|)
  {
    InStepDescribes(o);
    if o.haveSent < |o.header| {
      ChunkIsHeader(o);
    } else {
      ChunkIsRest(o);
    }
    hide Slice, Described;
    var p := ChunkDone(o);
    hide ChunkBuffer;
    assert p.wire == Message(o)[..p.haveSent];
  }

  lemma ChunkIsHeader(o: Out)
    requires InStep(o) && o.haveSent == 0 < |o.header|
    ensures ChunkBuffer(o).Some? && ChunkBuffer(o).value == o.header == Message(o)[..|o.header|]
  {
  }

  lemma ChunkIsRest(o: Out)
    requires InStep(o) && o.toSend > 0 && o.haveSent >= |o.header| && o.ivCount == 2
    ensures ChunkBuffer(o).Some? && ChunkBuffer(o).value == Message(o)[o.haveSent..]
    ensures o.wire + ChunkBuffer(o).value == Message(o) == Message(o)[..|Message(o)|]
  {
    TailOfMessage(o.header, o.file, o.haveSent);
    SliceToEnd(o.file, o.haveSent - |o.header|);
  }

  /** The full-buffer variant drains every message, one buffer after the other: what is on
      the wire is nothing before a completed write, the first buffer that is not empty after
      one, and the message after two. */
  lemma ChunksDrain(header: seq<char>, file: seq<char>, ivCount: nat, iv1: Iov, ok: seq<bool>)
    requires ivCount == 2 || (ivCount == 1 && file == [])
    ensures var o := ChunkRun(Start(header, file, ivCount, iv1), ok);
            && o.haveSent == |o.wire| && o.toSend == |header| + |file| - |o.wire|
            && o.wire == if ok == [] || !ok[0] then []
                         else if |ok| == 1 || !ok[1] then (if header == [] then file else header)
                         else header + file
  {
    hide *;
    var o := Start(header, file, ivCount, iv1);
    StartInStep(header, file, ivCount, iv1);
    StartSends(header, file, ivCount, iv1);
    InStepWire(o);
    ChunkRunNext(o, ok);
    if o.toSend > 0 && ok != [] && ok[0] {
      ChunkStep(o);
      var p := ChunkDone(o);
      InStepWire(p);
      ChunkRunNext(p, ok[1..]);
      if p.toSend > 0 && |ok| >= 2 && ok[1] {
        ChunkStep(p);
        var q := ChunkDone(p);
        InStepWire(q);
        ChunkRunNext(q, ok[1..][1..]);
      }
    }
  }

  lemma StartSends(header: seq<char>, file: seq<char>, ivCount: nat, iv1: Iov)
    ensures var o := Start(header, file, ivCount, iv1);
            && o.haveSent == 0 && o.toSend == |header| + |file| && o.header == header && o.file == file
            && o.ivCount == ivCount
  {
  }

  /** What is on the wire, by the counter. */
  lemma InStepWire(o: Out)
    requires InStep(o)
    ensures o.haveSent == |o.wire| && o.toSend == |o.header| + |o.file| - |o.wire|
    ensures o.haveSent == 0 ==> o.wire == []
    ensures o.haveSent == |o.header| ==> o.wire == o.header
    ensures o.toSend == 0 ==> o.wire == o.header + o.file
  {
    assert Message(o)[..|o.header|] == o.header && Message(o)[..|Message(o)|] == Message(o);
  }

  lemma ChunkRunNext(o: Out, ok: seq<bool>)
    ensures o.toSend <= 0 || ok == [] || !ok[0] ==> ChunkRun(o, ok) == o
    ensures o.toSend > 0 && ok != [] && ok[0] && ChunkBuffer(o).Some? ==>
              ChunkRun(o, ok) == ChunkRun(ChunkDone(o), ok[1..])
  {
    hide ChunkBuffer, ChunkDone;
  }
}
