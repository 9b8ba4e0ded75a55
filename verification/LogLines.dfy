/** The logger as steps of the logging threads and of the writing thread. */
module LogLines {
  import opened LogRotation
  import opened BlockingQueue

  type Line = string

  datatype Producer =
    | Idle
    | Formatted(line: Line)  // behind the locked regions, before m_log_queue->full()
    | Pushing(line: Line)    // full() was false
    | Putting(line: Line)    // about to lock m_mutex for fputs

  datatype Writer = Popping | Holding(line: Line)

  datatype Write = Write(file: FileName, line: Line, byWriter: bool)

  datatype System = System(
    logger: Logger,
    isAsync: bool,
    queue: seq<Line>,
    limit: nat,
    producers: seq<Producer>,
    writer: Writer,
    writes: seq<Write>,
    logged: seq<Line>,
    queued: seq<Line>,
    lost: seq<Line>)

  datatype Act =
    | Turn(p: nat, day: Date, line: Line)
    | Check(p: nat)
    | Enqueue(p: nat)
    | Put(p: nat)
    | Dequeue
    | Fputs

  /** init; limit 0 makes the logger synchronous. */
  function Init(day: Date, split: int, limit: nat, threads: nat): System {
    System(Opened(day, split), limit >= 1, [], limit, seq(threads, _ => Idle), Popping, [], [], [], [])
  }

  ghost predicate Enabled(s: System, a: Act) {
    s.logger.split > 0 &&
    match a
    case Turn(p, _, _) => p < |s.producers| && s.producers[p].Idle?
    case Check(p) => p < |s.producers| && s.producers[p].Formatted?
    case Enqueue(p) => p < |s.producers| && s.producers[p].Pushing?
    case Put(p) => p < |s.producers| && s.producers[p].Putting?
    case Dequeue => s.isAsync && s.writer.Popping? && s.queue != []
    case Fputs => s.writer.Holding?
  }

  function Step(s: System, a: Act): System
    requires Enabled(s, a)
  {
    match a
    case Turn(p, day, line) =>
      s.(logger := Turned(s.logger, day), logged := s.logged + [line], producers := s.producers[p := Formatted(line)])
    case Check(p) =>
      var line := s.producers[p].line;
      s.(producers := s.producers[p := if s.isAsync && |s.queue| < s.limit then Pushing(line) else Putting(line)])
    case Enqueue(p) =>
      var line := s.producers[p].line;
      var t := s.(queue := Pushed(s.queue, s.limit, line), producers := s.producers[p := Idle]);
      if |s.queue| < s.limit then t.(queued := s.queued + [line]) else t.(lost := s.lost + [line])
    case Put(p) =>
      var line := s.producers[p].line;
      s.(writes := s.writes + [Write(s.logger.file, line, false)], producers := s.producers[p := Idle])
    case Dequeue => s.(writer := Holding(s.queue[0]), queue := s.queue[1..])
    case Fputs => s.(writes := s.writes + [Write(s.logger.file, s.writer.line, true)], writer := Popping)
  }

  ghost predicate Run(s: System, acts: seq<Act>)
    decreases |acts|
  {
    acts != [] ==> Enabled(s, acts[0]) && Run(Step(s, acts[0]), acts[1..])
  }

  ghost function Reached(s: System, acts: seq<Act>): System
    requires Run(s, acts)
    decreases |acts|
  {
    if acts == [] then s else Reached(Step(s, acts[0]), acts[1..])
  }

  // --- where the lines are -----------------------------------------------------------------

  function Lines(ws: seq<Write>): (ls: seq<Line>)
    ensures |ls| == |ws|
  {
    seq(|ws|, i requires 0 <= i < |ws| => ws[i].line)
  }

  function Drained(ws: seq<Write>): seq<Line> {
    if ws == [] then []
    else Drained(ws[..|ws| - 1]) + (if ws[|ws| - 1].byWriter then [ws[|ws| - 1].line] else [])
  }

  function Held(w: Writer): seq<Line> { if w.Holding? then [w.line] else [] }

  function Carried(p: Producer): seq<Line> { if p.Idle? then [] else [p.line] }

  function InFlight(ps: seq<Producer>): seq<Line> {
    if ps == [] then [] else Carried(ps[0]) + InFlight(ps[1..])
  }

  function Times<T(==)>(s: seq<T>, x: T): nat { multiset(s)[x] }

  lemma TimesJoined<T>(a: seq<T>, b: seq<T>, x: T)
    ensures Times(a + b, x) == Times(a, x) + Times(b, x)
  {
    assert multiset(a + b) == multiset(a) + multiset(b);
  }

  lemma InFlightHead(ps: seq<Producer>, x: Line)
    requires ps != []
    ensures Times(InFlight(ps), x) == Times(Carried(ps[0]), x) + Times(InFlight(ps[1..]), x)
  {
    TimesJoined(Carried(ps[0]), InFlight(ps[1..]), x);
  }

  lemma {:induction false} InFlightMove(ps: seq<Producer>, p: nat, q: Producer, x: Line)
    requires p < |ps|
    ensures Times(InFlight(ps[p := q]), x) + Times(Carried(ps[p]), x) == Times(InFlight(ps), x) + Times(Carried(q), x)
  {
    hide Times, Carried, InFlight;
    var rs := ps[p := q];
    InFlightHead(ps, x);
    InFlightHead(rs, x);
    if p == 0 {
      assert rs[1..] == ps[1..];
    } else {
      assert rs[1..] == ps[1..][p - 1 := q];
      InFlightMove(ps[1..], p - 1, q, x);
    }
  }

  /** How often a line logged is in a file, in the queue, in the writer's or a logging
      thread's hand, or lost. */
  ghost function Accounted(s: System, x: Line): nat {
    Times(Lines(s.writes), x) + Times(s.queue, x) + Times(Held(s.writer), x)
    + Times(InFlight(s.producers), x) + Times(s.lost, x)
  }

  ghost predicate Conserved(s: System) {
    forall x :: Times(s.logged, x) == Accounted(s, x)
  }

  ghost predicate InOrder(s: System) {
    s.queued == Drained(s.writes) + Held(s.writer) + s.queue && |s.queue| <= s.limit
  }

  lemma LinesGrow(ws: seq<Write>, w: Write)
    ensures Lines(ws + [w]) == Lines(ws) + [w.line]
    ensures Drained(ws + [w]) == Drained(ws) + (if w.byWriter then [w.line] else [])
  {
    assert (ws + [w])[..|ws + [w]| - 1] == ws;
  }

  lemma TimesNone(x: Line)
    ensures Times([], x) == 0
  {
  }

  lemma TurnConserves(s: System, a: Act, x: Line)
    requires Enabled(s, a) && Times(s.logged, x) == Accounted(s, x) && a.Turn?
    ensures var t := Step(s, a); Times(t.logged, x) == Accounted(t, x)
  {
    var t := Step(s, a);
    TimesNone(x);
    hide Times, InFlight, Lines, Drained, Turned;
    InFlightMove(s.producers, a.p, Formatted(a.line), x);
    TimesJoined(s.logged, [a.line], x);
  }

  lemma CheckConserves(s: System, a: Act, x: Line)
    requires Enabled(s, a) && Times(s.logged, x) == Accounted(s, x) && a.Check?
    ensures var t := Step(s, a); Times(t.logged, x) == Accounted(t, x)
  {
    hide Times, InFlight, Lines, Held;
    var q := Step(s, a).producers[a.p];
    InFlightMove(s.producers, a.p, q, x);
    Checked(s, a);
    hide Step, Carried;
  }

  lemma Checked(s: System, a: Act)
    requires Enabled(s, a) && a.Check?
    ensures var t := Step(s, a);
            && t.producers == s.producers[a.p := t.producers[a.p]] && t.logged == s.logged && t.writes == s.writes
            && t.writer == s.writer && t.queue == s.queue && t.lost == s.lost
            && Carried(t.producers[a.p]) == Carried(s.producers[a.p])
  {
  }

  lemma PushConserves(s: System, a: Act, x: Line)
    requires Enabled(s, a) && Times(s.logged, x) == Accounted(s, x) && a.Enqueue?
    ensures var t := Step(s, a); Times(t.logged, x) == Accounted(t, x)
  {
    hide Times, InFlight, Lines, Drained, Turned, Held;
    var t := Step(s, a);
    TimesNone(x);
    InFlightMove(s.producers, a.p, Idle, x);
    var line := Carried(s.producers[a.p]);
    PushedOrLost(s, a);
    hide Step, Carried, Pushed;
    TimesJoined(s.queue, line, x);
    TimesJoined(s.lost, line, x);
  }

  lemma PushedOrLost(s: System, a: Act)
    requires Enabled(s, a) && a.Enqueue?
    ensures var t, line := Step(s, a), Carried(s.producers[a.p]);
            && t.producers == s.producers[a.p := Idle] && t.logged == s.logged
            && t.writes == s.writes && t.writer == s.writer && Carried(Idle) == []
            && if |s.queue| < s.limit then t.queue == s.queue + line && t.lost == s.lost
               else t.queue == s.queue && t.lost == s.lost + line
  {
  }

  lemma PutConserves(s: System, a: Act, x: Line)
    requires Enabled(s, a) && Times(s.logged, x) == Accounted(s, x) && a.Put?
    ensures var t := Step(s, a); Times(t.logged, x) == Accounted(t, x)
  {
    hide Times, InFlight, Lines, Held;
    TimesNone(x);
    InFlightMove(s.producers, a.p, Idle, x);
    PutAway(s, a);
    hide Step, Carried;
    TimesJoined(Lines(s.writes), Carried(s.producers[a.p]), x);
  }

  lemma PutAway(s: System, a: Act)
    requires Enabled(s, a) && a.Put?
    ensures var t := Step(s, a);
            && t.producers == s.producers[a.p := Idle] && t.logged == s.logged && Carried(Idle) == []
            && t.writer == s.writer && t.queue == s.queue && t.lost == s.lost
            && Lines(t.writes) == Lines(s.writes) + Carried(s.producers[a.p])
  {
    hide Lines, Drained;
    LinesGrow(s.writes, Write(s.logger.file, s.producers[a.p].line, false));
  }

  lemma DequeueConserves(s: System, x: Line)
    requires Enabled(s, Dequeue) && Times(s.logged, x) == Accounted(s, x)
    ensures var t := Step(s, Dequeue); Times(t.logged, x) == Accounted(t, x)
  {
    TimesNone(x);
    hide Times, InFlight, Lines, Drained, Turned;
    TimesJoined([s.queue[0]], s.queue[1..], x);
    assert s.queue == [s.queue[0]] + s.queue[1..];
  }

  lemma FputsConserves(s: System, x: Line)
    requires Enabled(s, Fputs) && Times(s.logged, x) == Accounted(s, x)
    ensures var t := Step(s, Fputs); Times(t.logged, x) == Accounted(t, x)
  {
    TimesNone(x);
    LinesGrow(s.writes, Write(s.logger.file, s.writer.line, true));
    TimesJoined(Lines(s.writes), Held(s.writer), x);
    var t := Step(s, Fputs);
    assert Held(s.writer) == [s.writer.line] && Held(t.writer) == [];
    assert Lines(t.writes) == Lines(s.writes) + Held(s.writer);
    hide Times, InFlight, Lines, Drained, Turned, Held;
  }

  lemma StepConserves(s: System, a: Act, x: Line)
    requires Enabled(s, a) && Times(s.logged, x) == Accounted(s, x)
    ensures var t := Step(s, a); Times(t.logged, x) == Accounted(t, x)
  {
    hide Step, Accounted, Times;
    match a {
      case Turn(_, _, _) => TurnConserves(s, a, x);
      case Check(_) => CheckConserves(s, a, x);
      case Enqueue(_) => PushConserves(s, a, x);
      case Put(_) => PutConserves(s, a, x);
      case Dequeue => DequeueConserves(s, x);
      case Fputs => FputsConserves(s, x);
    }
  }

  lemma StepKeepsOrder(s: System, a: Act)
    requires Enabled(s, a) && InOrder(s)
    ensures InOrder(Step(s, a))
  {
    hide Drained, Turned, Lines, Carried;
    match a {
      case Turn(_, _, _) =>
      case Check(_) =>
      case Enqueue(p) =>
        Join(Drained(s.writes) + Held(s.writer), s.queue, [s.producers[p].line]);
      case Put(p) =>
        PutDrainsNothing(s.writes, Write(s.logger.file, s.producers[p].line, false));
      case Dequeue => DequeueKeepsOrder(s);
      case Fputs => FputsKeepsOrder(s);
    }
  }

  lemma PutDrainsNothing(ws: seq<Write>, w: Write)
    requires !w.byWriter
    ensures Drained(ws + [w]) == Drained(ws)
  {
    LinesGrow(ws, w);
  }

  lemma Join<T>(x: seq<T>, y: seq<T>, z: seq<T>)
    ensures x + y + z == x + (y + z)
  {
  }

  lemma DequeueKeepsOrder(s: System)
    requires Enabled(s, Dequeue) && InOrder(s)
    ensures InOrder(Step(s, Dequeue))
  {
    hide Drained, Turned, Lines, Carried;
    var d := Drained(s.writes);
    assert d + [] == d && s.queue == [s.queue[0]] + s.queue[1..];
    Join(d, [s.queue[0]], s.queue[1..]);
    assert Held(s.writer) == [] && Held(Step(s, Dequeue).writer) == [s.queue[0]];
    hide Held;
  }

  lemma FputsKeepsOrder(s: System)
    requires Enabled(s, Fputs) && InOrder(s)
    ensures InOrder(Step(s, Fputs))
  {
    LinesGrow(s.writes, Write(s.logger.file, s.writer.line, true));
    hide Drained, Turned, Lines, Carried;
    var t := Step(s, Fputs);
    assert Held(s.writer) == [s.writer.line] && Held(t.writer) == [];
    assert Drained(t.writes) == Drained(s.writes) + Held(s.writer);
    hide Held;
    assert Drained(t.writes) + [] == Drained(t.writes);
  }

  lemma {:induction false} RunConserves(s: System, acts: seq<Act>)
    requires Run(s, acts) && Conserved(s) && InOrder(s)
    ensures Conserved(Reached(s, acts)) && InOrder(Reached(s, acts))
    decreases |acts|
  {
    if acts != [] {
      forall x ensures Times(Step(s, acts[0]).logged, x) == Accounted(Step(s, acts[0]), x) {
        StepConserves(s, acts[0], x);
      }
      StepKeepsOrder(s, acts[0]);
      RunConserves(Step(s, acts[0]), acts[1..]);
    }
  }

  lemma {:induction false} NobodyCarries(ps: seq<Producer>)
    requires forall i :: 0 <= i < |ps| ==> ps[i].Idle?
    ensures InFlight(ps) == []
  {
    if ps != [] {
      NobodyCarries(ps[1..]);
    }
  }

  lemma InitHolds(day: Date, split: int, limit: nat, threads: nat)
    ensures Conserved(Init(day, split, limit, threads)) && InOrder(Init(day, split, limit, threads))
  {
    NobodyCarries(Init(day, split, limit, threads).producers);
  }

  /** Over every interleaving, lines are conserved, and the lines of the queue reach the
      files in the order they were pushed. */
  lemma LinesConserved(day: Date, split: int, limit: nat, threads: nat, acts: seq<Act>)
    requires Run(Init(day, split, limit, threads), acts)
    ensures var s := Reached(Init(day, split, limit, threads), acts);
            && multiset(s.logged) == multiset(Lines(s.writes)) + multiset(s.queue) + multiset(Held(s.writer))
                                     + multiset(InFlight(s.producers)) + multiset(s.lost)
            && s.queued == Drained(s.writes) + Held(s.writer) + s.queue
  {
    InitHolds(day, split, limit, threads);
    RunConserves(Init(day, split, limit, threads), acts);
    AsMultisets(Reached(Init(day, split, limit, threads), acts));
  }

  lemma AsMultisets(s: System)
    requires Conserved(s)
    ensures multiset(s.logged) == multiset(Lines(s.writes)) + multiset(s.queue) + multiset(Held(s.writer))
                                  + multiset(InFlight(s.producers)) + multiset(s.lost)
  {
    var all := multiset(Lines(s.writes)) + multiset(s.queue) + multiset(Held(s.writer))
               + multiset(InFlight(s.producers)) + multiset(s.lost);
    forall x: Line ensures multiset(s.logged)[x] == all[x] {
      assert Times(s.logged, x) == Accounted(s, x);
    }
  }

  // --- losing a line -------------------------------------------------------------------------

  ghost predicate NoneLost(s: System) {
    |s.producers| <= 1 && s.lost == [] &&
    (s.producers != [] && s.producers[0].Pushing? ==> |s.queue| < s.limit)
  }

  lemma {:induction false} AloneLosesNone(s: System, acts: seq<Act>)
    requires Run(s, acts) && NoneLost(s)
    ensures NoneLost(Reached(s, acts))
    decreases |acts|
  {
    if acts != [] {
      var t := Step(s, acts[0]);
      assert NoneLost(t) by {
        hide Turned, Reached, Run;
      }
      AloneLosesNone(t, acts[1..]);
    }
  }

  /** A run on one day leads from `from` to s. */
  ghost predicate ReachableOn(from: System, s: System, day: Date) {
    exists acts :: Run(from, acts) && Reached(from, acts) == s && AllOn(acts, day)
  }

  ghost predicate AllOn(acts: seq<Act>, day: Date) {
    forall i :: 0 <= i < |acts| && acts[i].Turn? ==> acts[i].day == day
  }

  lemma {:induction false} ReachedThen(from: System, acts: seq<Act>, a: Act)
    requires Run(from, acts) && Enabled(Reached(from, acts), a)
    ensures Run(from, acts + [a]) && Reached(from, acts + [a]) == Step(Reached(from, acts), a)
    decreases |acts|
  {
    if acts == [] {
      assert ([] + [a])[1..] == [];
    } else {
      assert (acts + [a])[1..] == acts[1..] + [a];
      ReachedThen(Step(from, acts[0]), acts[1..], a);
    }
  }

  lemma StepOn(from: System, s: System, day: Date, a: Act) returns (t: System)
    requires ReachableOn(from, s, day) && Enabled(s, a) && (a.Turn? ==> a.day == day)
    ensures t == Step(s, a) && ReachableOn(from, t, day)
  {
    var acts :| Run(from, acts) && Reached(from, acts) == s && AllOn(acts, day);
    ReachedThen(from, acts, a);
    t := Step(s, a);
    assert AllOn(acts + [a], day);
  }

  /** All threads idle, nothing lost, n lines in the queue. */
  ghost predicate Filled(s: System, n: nat, limit: nat, threads: nat) {
    && s.isAsync && s.limit == limit && |s.queue| == n && s.lost == [] && s.logger.split > 0
    && |s.producers| == threads && forall p :: 0 <= p < threads ==> s.producers[p].Idle?
  }

  lemma {:induction false} Fill(from: System, day: Date, n: nat, limit: nat, threads: nat) returns (s: System)
    requires Filled(from, 0, limit, threads) && n < limit && threads > 0
    ensures ReachableOn(from, s, day) && Filled(s, n, limit, threads)
  {
    if n == 0 {
      s := from;
      assert Run(from, []) && Reached(from, []) == from && AllOn([], day);
    } else {
      s := Fill(from, day, n - 1, limit, threads);
      hide ReachableOn, Turned;
      s := StepOn(from, s, day, Turn(0, day, ""));
      s := StepOn(from, s, day, Check(0));
      s := StepOn(from, s, day, Enqueue(0));
    }
  }

  /** Two threads see the queue not full, and there is room for one line. */
  lemma SecondPushLost(from: System, s: System, day: Date, limit: nat, threads: nat) returns (t: System)
    requires limit >= 1 && threads >= 2 && ReachableOn(from, s, day) && Filled(s, limit - 1, limit, threads)
    ensures ReachableOn(from, t, day) && t.lost != []
  {
    hide ReachableOn, Turned;
    t := StepOn(from, s, day, Turn(0, day, ""));
    t := StepOn(from, t, day, Turn(1, day, ""));
    t := StepOn(from, t, day, Check(0));
    t := StepOn(from, t, day, Check(1));
    t := StepOn(from, t, day, Enqueue(0));
    t := StepOn(from, t, day, Enqueue(1));
  }

  /** No interleaving of an asynchronous logger loses a line iff at most one thread logs. */
  lemma NoneLostExactly(day: Date, split: int, limit: nat, threads: nat)
    requires split > 0 && limit >= 1
    ensures (forall acts | Run(Init(day, split, limit, threads), acts) ::
               Reached(Init(day, split, limit, threads), acts).lost == [])
            <==> threads <= 1
  {
    var i := Init(day, split, limit, threads);
    if threads <= 1 {
      forall acts | Run(i, acts) ensures Reached(i, acts).lost == [] {
        AloneLosesNone(i, acts);
      }
    } else {
      var s := Fill(i, day, limit - 1, limit, threads);
      s := SecondPushLost(i, s, day, limit, threads);
      var acts :| Run(i, acts) && Reached(i, acts) == s;
      assert Reached(i, acts).lost != [];
    }
  }

  // --- one thread: the order in the files ------------------------------------------------------

  ghost function Waiting(s: System): seq<Line> { Held(s.writer) + s.queue }

  /** What one thread has logged is in the files, then waiting, then in its hand, in order. */
  ghost predicate Ordered(s: System) {
    |s.producers| == 1 && |s.queue| <= s.limit
    && s.logged == Lines(s.writes) + Waiting(s) + Carried(s.producers[0])
    && NoneLost(s)
  }

  lemma {:induction false} Commutes<T>(h: seq<T>, x: T)
    ensures [x] + h == h + [x] <==> forall y <- h :: y == x
  {
    if [x] + h == h + [x] {
      forall i | 0 <= i < |h| ensures h[i] == x {
        SameAsFirst(h, x, i);
      }
    } else if forall y <- h :: y == x {
      forall i | 0 <= i <= |h| ensures ([x] + h)[i] == (h + [x])[i] {
        assert i > 0 ==> h[i - 1] in h;
        assert i < |h| ==> h[i] in h;
      }
    }
  }

  lemma {:induction false} SameAsFirst<T>(h: seq<T>, x: T, i: nat)
    requires i < |h| && [x] + h == h + [x]
    ensures h[i] == x
  {
    assert ([x] + h)[i] == (h + [x])[i];
    if i > 0 {
      SameAsFirst(h, x, i - 1);
    }
  }

  lemma Regroup<T>(w: seq<T>, h: seq<T>, x: T)
    ensures (w + [x]) + h == w + h + [x] <==> forall y <- h :: y == x
  {
    Commutes(h, x);
    assert (w + [x]) + h == w + ([x] + h) && w + h + [x] == w + (h + [x]);
    assert ((w + [x]) + h)[|w|..] == [x] + h && (w + h + [x])[|w|..] == h + [x];
  }

  /** A line written directly keeps the order exactly when whatever waits is that same
      line: otherwise it overtakes. */
  lemma PutKeepsOrderExactly(s: System)
    requires Ordered(s) && Enabled(s, Put(0))
    ensures Ordered(Step(s, Put(0))) <==> forall y <- Waiting(s) :: y == s.producers[0].line
  {
    var line, t := s.producers[0].line, Step(s, Put(0));
    LinesGrow(s.writes, t.writes[|s.writes|]);
    Regroup(Lines(s.writes), Waiting(s), line);
    assert Carried(t.producers[0]) == [];
  }

  lemma OthersKeepOrder(s: System, a: Act)
    requires Ordered(s) && Enabled(s, a) && !a.Put?
    ensures Ordered(Step(s, a))
  {
    hide Ordered, Step;
    match a {
      case Turn(_, _, _) => TurnKeepsOrdered(s, a);
      case Check(_) => CheckKeepsOrdered(s, a);
      case Enqueue(_) => EnqueueKeepsOrdered(s, a);
      case Dequeue => DequeueKeepsOrdered(s);
      case Fputs => FputsKeepsOrdered(s);
    }
  }

  lemma TurnKeepsOrdered(s: System, a: Act)
    requires Ordered(s) && Enabled(s, a) && a.Turn?
    ensures Ordered(Step(s, a))
  {
    hide Lines, Held, Turned;
    var t := Step(s, a);
    assert t.logged == Lines(t.writes) + Waiting(t) + [a.line];
  }

  lemma CheckKeepsOrdered(s: System, a: Act)
    requires Ordered(s) && Enabled(s, a) && a.Check?
    ensures Ordered(Step(s, a))
  {
    hide Lines, Held;
    assert NoneLost(Step(s, a));
    Checked(s, a);
    hide Step, Carried, NoneLost;
  }

  lemma EnqueueKeepsOrdered(s: System, a: Act)
    requires Ordered(s) && Enabled(s, a) && a.Enqueue?
    ensures Ordered(Step(s, a))
  {
    hide Lines, Held;
    var t := Step(s, a);
    assert NoneLost(t);
    PushedOrLost(s, a);
    hide Step, NoneLost;
    assert Waiting(t) == Waiting(s) + Carried(s.producers[0]);
    hide Waiting, Carried;
    Regrouped(Lines(s.writes), Waiting(s), Carried(s.producers[0]));
  }

  lemma Regrouped<T>(a: seq<T>, b: seq<T>, c: seq<T>)
    ensures a + b + c == a + (b + c) + []
  {
  }

  lemma DequeueKeepsOrdered(s: System)
    requires Ordered(s) && Enabled(s, Dequeue)
    ensures Ordered(Step(s, Dequeue))
  {
    hide Lines;
    assert Waiting(Step(s, Dequeue)) == Waiting(s);
  }

  lemma FputsKeepsOrdered(s: System)
    requires Ordered(s) && Enabled(s, Fputs)
    ensures Ordered(Step(s, Fputs))
  {
    hide Lines, Drained;
    var t := Step(s, Fputs);
    LinesGrow(s.writes, Write(s.logger.file, s.writer.line, true));
    assert Lines(t.writes) + Waiting(t) == Lines(s.writes) + Waiting(s);
  }

  /** Every direct write finds nothing else waiting. */
  ghost predicate PutsAlone(s: System, acts: seq<Act>)
    requires Run(s, acts)
    decreases |acts|
  {
    acts != [] ==> (acts[0].Put? ==> Waiting(s) == []) && PutsAlone(Step(s, acts[0]), acts[1..])
  }

  lemma {:induction false} RunKeepsOrder(s: System, acts: seq<Act>)
    requires Run(s, acts) && PutsAlone(s, acts) && Ordered(s)
    ensures Ordered(Reached(s, acts))
    decreases |acts|
  {
    if acts != [] {
      if acts[0].Put? {
        PutKeepsOrderExactly(s);
      } else {
        OthersKeepOrder(s, acts[0]);
      }
      RunKeepsOrder(Step(s, acts[0]), acts[1..]);
    }
  }

  lemma {:induction false} SynchronousPutsAlone(s: System, acts: seq<Act>)
    requires Run(s, acts) && !s.isAsync && Waiting(s) == [] && NoneLost(s)
    requires s.producers != [] ==> !s.producers[0].Pushing?
    ensures PutsAlone(s, acts)
    decreases |acts|
  {
    if acts != [] {
      var t := Step(s, acts[0]);
      assert !acts[0].Dequeue? && !acts[0].Fputs? && !acts[0].Enqueue?;
      SynchronousPutsAlone(t, acts[1..]);
    }
  }

  /** One thread and no queue: the files hold the lines in the order they were logged. */
  lemma SynchronousInOrder(day: Date, split: int, acts: seq<Act>)
    requires Run(Init(day, split, 0, 1), acts)
    ensures var s := Reached(Init(day, split, 0, 1), acts);
            && s.producers != []
            && s.logged == Lines(s.writes) + Carried(s.producers[0])
  {
    SynchronousPutsAlone(Init(day, split, 0, 1), acts);
    RunKeepsOrder(Init(day, split, 0, 1), acts);
    SynchronousWaitsNever(Init(day, split, 0, 1), acts);
  }

  lemma {:induction false} SynchronousWaitsNever(s: System, acts: seq<Act>)
    requires Run(s, acts) && !s.isAsync && Waiting(s) == [] && NoneLost(s)
    requires s.producers != [] ==> !s.producers[0].Pushing?
    ensures Waiting(Reached(s, acts)) == []
    decreases |acts|
  {
    if acts != [] {
      assert !acts[0].Dequeue? && !acts[0].Fputs? && !acts[0].Enqueue?;
      SynchronousWaitsNever(Step(s, acts[0]), acts[1..]);
    }
  }
}
