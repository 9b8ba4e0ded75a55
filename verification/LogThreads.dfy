/** The quota of the log files when several threads log or lines wait in a queue: between the
    region that counts a line and the one that writes it the file may have changed. */
module LogThreads {
  import opened LogLines
  import opened LogRotation
  import opened Quotients

  /** The days the logging threads read, in the order in which they count their lines. */
  function TurnDays(acts: seq<Act>): seq<Date>
    decreases |acts|
  {
    if acts == [] then [] else (if acts[0].Turn? then [acts[0].day] else []) + TurnDays(acts[1..])
  }

  /** How many lines were written to file f. */
  function WrittenTo(ws: seq<Write>, f: FileName): nat
    decreases |ws|
  {
    if ws == [] then 0
    else WrittenTo(ws[..|ws| - 1], f) + if ws[|ws| - 1].file == f then 1 else 0
  }

  lemma OneMoreWritten(ws: seq<Write>, w: Write, f: FileName)
    ensures WrittenTo(ws + [w], f) == WrittenTo(ws, f) + if w.file == f then 1 else 0
  {
    assert (ws + [w])[..|ws|] == ws;
  }

  // --- lines that are counted and not written ------------------------------------------------

  function One(p: Producer): nat { if p.Idle? then 0 else 1 }

  function Busy(ps: seq<Producer>): (n: nat)
    ensures n <= |ps|
  {
    if ps == [] then 0 else One(ps[0]) + Busy(ps[1..])
  }

  lemma {:induction false} BusyMove(ps: seq<Producer>, p: nat, q: Producer)
    requires p < |ps|
    ensures Busy(ps[p := q]) + One(ps[p]) == Busy(ps) + One(q)
    ensures Busy(ps) <= |ps| - 1 + One(ps[p])
  {
    if p > 0 {
      BusyMove(ps[1..], p - 1, q);
      assert ps[p := q][1..] == ps[1..][p - 1 := q];
    } else {
      assert ps[p := q][1..] == ps[1..];
    }
  }

  lemma {:induction false} NoneBusy(ps: seq<Producer>)
    requires forall i :: 0 <= i < |ps| ==> ps[i].Idle?
    ensures Busy(ps) == 0
  {
    if ps != [] {
      NoneBusy(ps[1..]);
    }
  }

  function Pending(s: System): nat {
    Busy(s.producers) + |s.queue| + if s.writer.Holding? then 1 else 0
  }

  /** How many lines can wait while one more is counted: one of each other thread, and with a
      queue what it holds and the one in the writer's hand. */
  function Slack(threads: nat, limit: nat): int {
    threads - 1 + if limit >= 1 then limit + 1 else 0
  }

  // --- the bound -------------------------------------------------------------------------------

  /** `had` are the files the lines so far were counted for. */
  ghost predicate Bounded(s: System, day: Date, had: multiset<FileName>) {
    && WithinQuota(s.logger, day, had)
    && |s.producers| > 0 && |s.queue| <= s.limit && (s.isAsync <==> s.limit >= 1)
    && (s.limit == 0 ==> s.writer.Popping?)
    && (forall f :: WrittenTo(s.writes, f) > 0 ==> f == s.logger.file || Earlier(f, s.logger.file))
    && WrittenTo(s.writes, s.logger.file) + Pending(s) <= had[s.logger.file] + Slack(|s.producers|, s.limit)
    && forall f :: WrittenTo(s.writes, f) <= had[f] + Slack(|s.producers|, s.limit)
  }

  /** While the clock does not go back, a new file is a later one. */
  lemma TurnsLater(l: Logger, day: Date, d: Date)
    requires Named(l, day) && NotAfter(l.file.day, day) && NotAfter(day, d)
    ensures var f := Turned(l, d).file; f == l.file || Earlier(l.file, f)
  {
    TurnKeepsName(l, day, d);
    NextPart(l.count, l.split);
  }

  lemma EarlierTwice(f: FileName, g: FileName, h: FileName)
    requires (f == g || Earlier(f, g)) && Earlier(g, h)
    ensures Earlier(f, h) && f != h
  {
  }

  lemma TurnKeepsBound(s: System, day: Date, had: multiset<FileName>, a: Act)
    requires Bounded(s, day, had) && Enabled(s, a) && a.Turn? && NotAfter(day, a.day)
    ensures Bounded(Step(s, a), a.day, had + multiset{Step(s, a).logger.file})
  {
    var t := Step(s, a);
    var old_file, file := s.logger.file, t.logger.file;
    TurnKeepsQuota(s.logger, day, had, a.day);
    TurnsLater(s.logger, day, a.day);
    BusyMove(s.producers, a.p, Formatted(a.line));
    assert Pending(t) == Pending(s) + 1 && Pending(s) <= Slack(|s.producers|, s.limit);
    hide Turned, Busy, WithinQuota, Pending, Earlier;
    forall f | WrittenTo(t.writes, f) > 0
      ensures f == file || Earlier(f, file)
    {
      if file != old_file {
        EarlierTwice(f, old_file, file);
      }
    }
    if file != old_file && WrittenTo(s.writes, file) > 0 {
      EarlierTwice(file, old_file, file);
    }
  }

  /** A line goes to the file that is open. */
  lemma WriteKeepsBound(s: System, day: Date, had: multiset<FileName>, a: Act)
    requires Bounded(s, day, had) && Enabled(s, a) && (a.Put? || a.Fputs?)
    ensures Bounded(Step(s, a), day, had)
  {
    hide WithinQuota, Earlier, Pending, WrittenTo, Slack;
    var w := LineWritten(s, a);
    hide Step, Enabled;
    forall f ensures WrittenTo(Step(s, a).writes, f) == WrittenTo(s.writes, f) + if f == s.logger.file then 1 else 0 {
      OneMoreWritten(s.writes, w, f);
    }
  }

  lemma LineWritten(s: System, a: Act) returns (w: Write)
    requires Enabled(s, a) && (a.Put? || a.Fputs?)
    ensures var t := Step(s, a);
            && t.writes == s.writes + [w] && w.file == s.logger.file && t.logger == s.logger
            && t.limit == s.limit && t.isAsync == s.isAsync && t.queue == s.queue
            && |t.producers| == |s.producers| && (s.writer.Popping? ==> t.writer.Popping?)
            && Pending(t) == Pending(s) - 1
  {
    w := Step(s, a).writes[|s.writes|];
    hide Busy;
    if a.Put? {
      BusyMove(s.producers, a.p, Idle);
    }
  }

  /** The other steps write nothing, and what waits does not become more. */
  lemma MoveKeepsBound(s: System, day: Date, had: multiset<FileName>, a: Act)
    requires Bounded(s, day, had) && Enabled(s, a) && (a.Check? || a.Enqueue? || a.Dequeue?)
    ensures Bounded(Step(s, a), day, had)
  {
    hide WithinQuota, Earlier, WrittenTo, Busy;
    if !a.Dequeue? {
      BusyMove(s.producers, a.p, Step(s, a).producers[a.p]);
    }
  }

  lemma StepKeepsBound(s: System, day: Date, had: multiset<FileName>, acts: seq<Act>)
      returns (d: Date, now: multiset<FileName>)
    requires acts != [] && Bounded(s, day, had) && Enabled(s, acts[0]) && ClockForward(day, TurnDays(acts))
    ensures Bounded(Step(s, acts[0]), d, now) && ClockForward(d, TurnDays(acts[1..]))
  {
    var a := acts[0];
    FirstDay(day, acts);
    d, now := day, had;
    hide Bounded, Turned, TurnDays, ClockForward, Step;
    match a {
      case Turn(_, _, _) =>
        TurnKeepsBound(s, day, had, a);
        d, now := a.day, had + multiset{Step(s, a).logger.file};
      case Put(_) => WriteKeepsBound(s, day, had, a);
      case Fputs => WriteKeepsBound(s, day, had, a);
      case _ => MoveKeepsBound(s, day, had, a);
    }
  }

  lemma FirstDay(day: Date, acts: seq<Act>)
    requires acts != [] && ClockForward(day, TurnDays(acts))
    ensures if acts[0].Turn? then NotAfter(day, acts[0].day) && ClockForward(acts[0].day, TurnDays(acts[1..]))
            else ClockForward(day, TurnDays(acts[1..]))
  {
    var rest := TurnDays(acts[1..]);
    assert TurnDays(acts) == (if acts[0].Turn? then [acts[0].day] else []) + rest;
    assert acts[0].Turn? ==> TurnDays(acts)[1..] == rest;
    assert !acts[0].Turn? ==> TurnDays(acts) == rest;
  }

  lemma Fixed(s: System, a: Act)
    requires Enabled(s, a)
    ensures var t := Step(s, a);
            |t.producers| == |s.producers| && t.limit == s.limit && t.logger.split == s.logger.split
  {
  }

  lemma BoundNow(s: System, day: Date, had: multiset<FileName>)
    requires Bounded(s, day, had)
    ensures forall f :: WrittenTo(s.writes, f) <= s.logger.split + Slack(|s.producers|, s.limit)
  {
    hide WrittenTo, Slack, Earlier;
    assert forall f :: had[f] <= s.logger.split;
  }

  lemma {:induction false} RunKeepsBound(s: System, day: Date, had: multiset<FileName>, acts: seq<Act>)
    requires Bounded(s, day, had) && Run(s, acts) && ClockForward(day, TurnDays(acts))
    ensures var p := Reached(s, acts);
            forall f :: WrittenTo(p.writes, f) <= s.logger.split + Slack(|s.producers|, s.limit)
    decreases |acts|
  {
    hide Bounded, Step, Enabled, TurnDays, ClockForward, Slack, WrittenTo;
    BoundNow(s, day, had);
    if acts != [] {
      var d, now := StepKeepsBound(s, day, had, acts);
      Fixed(s, acts[0]);
      RunKeepsBound(Step(s, acts[0]), d, now, acts[1..]);
      assert Reached(s, acts) == Reached(Step(s, acts[0]), acts[1..]);
    } else {
      assert Reached(s, acts) == s;
    }
  }

  lemma StartsBounded(day: Date, split: int, limit: nat, threads: nat)
    requires split > 0 && threads > 0
    ensures Bounded(Init(day, split, limit, threads), day, multiset{})
  {
    NoneBusy(Init(day, split, limit, threads).producers);
    Quotient(0, 0, 0, split);
  }

  /** While the clock does not go back, no interleaving puts more lines into a file than
      m_split_lines and those that can wait while it is opened. */
  lemma FileBound(day: Date, split: int, limit: nat, threads: nat, acts: seq<Act>)
    requires split > 0 && threads > 0 && Run(Init(day, split, limit, threads), acts)
    requires ClockForward(day, TurnDays(acts))
    ensures forall f :: WrittenTo(Reached(Init(day, split, limit, threads), acts).writes, f)
                        <= split + Slack(threads, limit)
  {
    StartsBounded(day, split, limit, threads);
    RunKeepsBound(Init(day, split, limit, threads), day, multiset{}, acts);
  }

  // --- it is reached beyond the quota ------------------------------------------------------------

  lemma {:induction false} SameDayForward(acts: seq<Act>, day: Date)
    requires AllOn(acts, day)
    ensures ClockForward(day, TurnDays(acts))
    decreases |acts|
  {
    if acts != [] {
      SameDayForward(acts[1..], day);
      var days := TurnDays(acts);
      assert acts[0].Turn? ==> days[0] == day && days[1..] == TurnDays(acts[1..]);
      assert !acts[0].Turn? ==> days == TurnDays(acts[1..]);
    }
  }

  /** The first thread is idle, and what it logs now is written at once: there is no queue, or
      it is full. */
  ghost predicate Direct(s: System, day: Date) {
    && Named(s.logger, day) && s.logger.file.day == day
    && s.producers != [] && s.producers[0].Idle? && (s.isAsync ==> |s.queue| >= s.limit)
  }

  /** What direct lines leave alone. */
  ghost predicate SameWaiting(s: System, t: System) {
    t.queue == s.queue && t.writer == s.writer && t.producers == s.producers && t.isAsync == s.isAsync
    && t.limit == s.limit && t.logger.split == s.logger.split
  }

  lemma DirectLine(from: System, s: System, day: Date) returns (t: System)
    requires ReachableOn(from, s, day) && Direct(s, day)
    ensures ReachableOn(from, t, day) && Direct(t, day) && SameWaiting(s, t)
    ensures t.logger == Turned(s.logger, day) && t.logger.count == s.logger.count + 1
    ensures t.writes == s.writes + [Write(t.logger.file, "", false)]
  {
    hide ReachableOn;
    TurnKeepsName(s.logger, day, day);
    NameStaysExactly(s.logger, day, day);
    hide Named, Turned;
    t := StepOn(from, s, day, Turn(0, day, ""));
    t := StepOn(from, t, day, Check(0));
    t := StepOn(from, t, day, Put(0));
    CountsOn(s.logger, day);
    assert t.producers == s.producers;
  }

  lemma CountsOn(l: Logger, day: Date)
    requires Named(l, day)
    ensures Turned(l, day).count == l.count + 1
  {
  }

  /** n direct lines; those for part k add up, when all are. */
  lemma {:induction false} DirectLines(from: System, s: System, day: Date, n: nat, k: int) returns (t: System)
    requires ReachableOn(from, s, day) && Direct(s, day)
    ensures ReachableOn(from, t, day) && Direct(t, day) && SameWaiting(s, t)
    ensures t.logger.count == s.logger.count + n
    ensures (forall j :: s.logger.count < j <= s.logger.count + n ==> j / s.logger.split == k) ==>
              WrittenTo(t.writes, FileName(day, k)) == WrittenTo(s.writes, FileName(day, k)) + n
    decreases n
  {
    t := s;
    if n > 0 {
      hide ReachableOn, Direct, Turned, WrittenTo;
      var r := DirectLines(from, s, day, n - 1, k);
      t := DirectLine(from, r, day);
      OneMoreWritten(r.writes, t.writes[|r.writes|], FileName(day, k));
      FileIs(t, day);
    }
  }

  lemma FileIs(s: System, day: Date)
    requires Direct(s, day)
    ensures s.logger.split > 0 && s.logger.file == FileName(day, s.logger.count / s.logger.split)
  {
  }

  /** With a line waiting, a whole part is written, and then the line goes to it as well. */
  lemma FullPart(from: System, s: System, day: Date) returns (t: System, f: FileName)
    requires ReachableOn(from, s, day) && Direct(s, day)
    ensures ReachableOn(from, t, day) && Direct(t, day) && SameWaiting(s, t)
    ensures t.logger.file == f && WrittenTo(t.writes, f) >= s.logger.split
  {
    hide ReachableOn, Direct, Turned, WrittenTo, SameWaiting;
    FileIs(s, day);
    var c, split := s.logger.count, s.logger.split;
    MulMonotone(1, split, c + 1);
    var r := DirectLines(from, s, day, (c + 1) * split - 1 - c, 0);
    Waits(s, r);
    forall j | (c + 1) * split - 1 < j <= (c + 1) * split - 1 + split ensures j / split == c + 1 {
      Quotient(j, c + 1, j - (c + 1) * split, split);
    }
    t := DirectLines(from, r, day, split, c + 1);
    Waits(r, t);
    Quotient(t.logger.count, c + 1, split - 1, split);
    FileIs(t, day);
    f := FileName(day, c + 1);
    StillWaits(s, r, t);
  }

  lemma Waits(s: System, t: System)
    requires SameWaiting(s, t)
    ensures t.logger.split == s.logger.split
  {
  }

  lemma StillWaits(s: System, r: System, t: System)
    requires SameWaiting(s, r) && SameWaiting(r, t)
    ensures SameWaiting(s, t)
  {
  }

  lemma {:induction false} FillOn(from: System, day: Date, n: nat) returns (s: System)
    requires Direct(from.(isAsync := false), day) && from.isAsync && from.queue == [] && n <= from.limit
    requires from.writer.Popping?
    ensures ReachableOn(from, s, day) && Direct(s.(isAsync := false), day) && s.isAsync && |s.queue| == n
    ensures s.writer.Popping? && s.limit == from.limit && s.logger.split == from.logger.split
    decreases n
  {
    if n == 0 {
      s := from;
      assert Run(from, []) && Reached(from, []) == from && AllOn([], day);
    } else {
      s := FillOn(from, day, n - 1);
      hide ReachableOn;
      TurnKeepsName(s.logger, day, day);
      NameStaysExactly(s.logger, day, day);
      hide Named, Turned;
      s := StepOn(from, s, day, Turn(0, day, ""));
      s := StepOn(from, s, day, Check(0));
      s := StepOn(from, s, day, Enqueue(0));
    }
  }

  lemma Starts(day: Date, split: int, limit: nat, threads: nat)
    requires split > 0 && threads > 0
    ensures var i := Init(day, split, limit, threads);
            Direct(i.(isAsync := false), day) && i.isAsync == (limit >= 1) && (limit == 0 ==> Direct(i, day))
  {
    Quotient(0, 0, 0, split);
  }

  /** The line that waits is the oldest of a full queue. */
  lemma QueueOverfills(day: Date, split: int, limit: nat, threads: nat) returns (t: System, f: FileName)
    requires split > 0 && limit >= 1 && threads > 0
    ensures ReachableOn(Init(day, split, limit, threads), t, day) && WrittenTo(t.writes, f) > split
  {
    var i := Init(day, split, limit, threads);
    Starts(day, split, limit, threads);
    t := FillOn(i, day, limit);
    hide ReachableOn, Named, Turned, WrittenTo;
    t, f := FullPart(i, t, day);
    t := StepOn(i, t, day, Dequeue);
    OneMoreWritten(t.writes, Write(f, t.writer.line, true), f);
    t := StepOn(i, t, day, Fputs);
  }

  /** The line that waits is in the hand of another thread. */
  lemma ThreadOverfills(day: Date, split: int, threads: nat) returns (t: System, f: FileName)
    requires split > 0 && threads > 1
    ensures ReachableOn(Init(day, split, 0, threads), t, day) && WrittenTo(t.writes, f) > split
  {
    var i := Init(day, split, 0, threads);
    Starts(day, split, 0, threads);
    assert Run(i, []) && Reached(i, []) == i && AllOn([], day);
    assert ReachableOn(i, i, day);
    hide ReachableOn, WrittenTo;
    TurnKeepsName(i.logger, day, day);
    NameStaysExactly(i.logger, day, day);
    hide Named, Turned;
    t := StepOn(i, i, day, Turn(1, day, ""));
    t, f := FullPart(i, t, day);
    t := StepOn(i, t, day, Check(1));
    OneMoreWritten(t.writes, Write(f, t.producers[1].line, false), f);
    t := StepOn(i, t, day, Put(1));
  }

  /** In every run whose clock does not go back, no file gets more than `most` lines. */
  ghost predicate AlwaysWithin(from: System, day: Date, most: int) {
    forall acts, f | Run(from, acts) && ClockForward(day, TurnDays(acts)) ::
      WrittenTo(Reached(from, acts).writes, f) <= most
  }

  lemma Overfills(from: System, t: System, day: Date, f: FileName, most: int)
    requires ReachableOn(from, t, day) && WrittenTo(t.writes, f) > most
    ensures !AlwaysWithin(from, day, most)
  {
    var acts :| Run(from, acts) && Reached(from, acts) == t && AllOn(acts, day);
    SameDayForward(acts, day);
  }

  lemma NobodyLogs(day: Date, split: int, limit: nat, acts: seq<Act>)
    requires Run(Init(day, split, limit, 0), acts)
    ensures acts == []
  {
  }

  /** No interleaving overfills a file, as long as the clock does not go back, exactly when
      nothing can wait between counting and writing: at most one thread logs, without a queue. */
  lemma QuotaForThreadsExactly(day: Date, split: int, limit: nat, threads: nat)
    requires split > 0
    ensures AlwaysWithin(Init(day, split, limit, threads), day, split)
            <==> threads == 0 || (threads == 1 && limit == 0)
  {
    var i := Init(day, split, limit, threads);
    if threads == 0 {
      forall acts, f | Run(i, acts) && ClockForward(day, TurnDays(acts))
        ensures WrittenTo(Reached(i, acts).writes, f) <= split
      {
        NobodyLogs(day, split, limit, acts);
      }
    } else if threads == 1 && limit == 0 {
      forall acts, f | Run(i, acts) && ClockForward(day, TurnDays(acts))
        ensures WrittenTo(Reached(i, acts).writes, f) <= split
      {
        FileBound(day, split, limit, threads, acts);
      }
    } else if limit >= 1 {
      var t, f := QueueOverfills(day, split, limit, threads);
      Overfills(i, t, day, f, split);
    } else {
      var t, f := ThreadOverfills(day, split, threads);
      Overfills(i, t, day, f, split);
    }
  }
}
