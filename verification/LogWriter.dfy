/** class Log in place: each method is one locked region, or a queue operation, and does
    what the step of the same name in LogLines does. */
module LogWriter {
  import opened BlockingQueue
  import opened LogLines
  import opened LogRotation

  /** The lines that one call after the other of write_log puts where they go, with no
      other thread in between. */
  function WriteLog(s: System, day: Date, line: Line): System
    requires s.logger.split > 0 && |s.producers| > 0 && s.producers[0].Idle?
  {
    var t := Step(Step(s, Turn(0, day, line)), Check(0));
    if t.producers[0].Pushing? then Step(t, Enqueue(0)) else Step(t, Put(0))
  }

  /** All that is queued, written by the writing thread. */
  function Written(file: FileName, q: seq<Line>): (ws: seq<Write>)
    ensures |ws| == |q|
  {
    seq(|q|, i requires 0 <= i < |q| => Write(file, q[i], true))
  }

  // --- the writing thread among the others ----------------------------------------------------

  ghost predicate ByLoggers(acts: seq<Act>) {
    forall a <- acts :: !a.Dequeue? && !a.Fputs?
  }

  /** One round of the writing thread's loop with what the others do before and during it. */
  ghost predicate FeasibleSlot(s: System, slot: (seq<Act>, seq<Act>)) {
    && ByLoggers(slot.0) && Run(s, slot.0)
    && var t := Reached(s, slot.0);
       t.queue != [] ==>
         Enabled(t, Dequeue) && ByLoggers(slot.1) && Run(Step(t, Dequeue), slot.1)
         && Enabled(Reached(Step(t, Dequeue), slot.1), Fputs)
  }

  ghost function AfterSlot(s: System, slot: (seq<Act>, seq<Act>)): System
    requires FeasibleSlot(s, slot)
  {
    var t := Reached(s, slot.0);
    if t.queue == [] then t else Step(Reached(Step(t, Dequeue), slot.1), Fputs)
  }

  ghost predicate Feasible(s: System, slots: seq<(seq<Act>, seq<Act>)>)
    decreases |slots|
  {
    slots != [] ==> FeasibleSlot(s, slots[0]) && Feasible(AfterSlot(s, slots[0]), slots[1..])
  }

  ghost function Interleaved(s: System, slots: seq<(seq<Act>, seq<Act>)>): System
    requires Feasible(s, slots)
    decreases |slots|
  {
    if slots == [] then s else Interleaved(AfterSlot(s, slots[0]), slots[1..])
  }

  lemma {:induction false} RunJoined(s: System, x: seq<Act>, y: seq<Act>)
    requires Run(s, x) && Run(Reached(s, x), y)
    ensures Run(s, x + y) && Reached(s, x + y) == Reached(Reached(s, x), y)
    decreases |x|
  {
    if x == [] {
      assert x + y == y;
    } else {
      assert (x + y)[0] == x[0] && (x + y)[1..] == x[1..] + y;
      RunJoined(Step(s, x[0]), x[1..], y);
    }
  }

  lemma OneAct(s: System, a: Act)
    requires Enabled(s, a)
    ensures Run(s, [a]) && Reached(s, [a]) == Step(s, a)
  {
    assert [a][1..] == [];
    hide Step;
  }

  /** The steps of one round: what the others do, and if there is an item then, the pop, what
      they do before the lock, and fputs. */
  ghost function SlotActs(s: System, slot: (seq<Act>, seq<Act>)): seq<Act>
    requires Run(s, slot.0)
  {
    slot.0 + if Reached(s, slot.0).queue == [] then [] else [Dequeue] + slot.1 + [Fputs]
  }

  /** `acts` is the steps of all rounds, one round after the other. */
  ghost predicate OneAfterTheOther(s: System, slots: seq<(seq<Act>, seq<Act>)>, acts: seq<Act>)
    decreases |slots|
  {
    if slots == [] then acts == []
    else Run(s, slots[0].0) &&
         var first := SlotActs(s, slots[0]);
         Run(s, first) && first <= acts && OneAfterTheOther(Reached(s, first), slots[1..], acts[|first|..])
  }

  lemma SlotIsRun(s: System, slot: (seq<Act>, seq<Act>))
    requires FeasibleSlot(s, slot)
    ensures Run(s, slot.0) && Run(s, SlotActs(s, slot)) && Reached(s, SlotActs(s, slot)) == AfterSlot(s, slot)
  {
    hide Step, Run, Reached, Enabled;
    var t := Reached(s, slot.0);
    if t.queue == [] {
      assert slot.0 + [] == slot.0;
    } else {
      var u := Step(t, Dequeue);
      OneAct(t, Dequeue);
      RunJoined(t, [Dequeue], slot.1);
      OneAct(Reached(u, slot.1), Fputs);
      RunJoined(t, [Dequeue] + slot.1, [Fputs]);
      RunJoined(s, slot.0, [Dequeue] + slot.1 + [Fputs]);
    }
  }

  /** Whatever the others do, the loop goes through exactly these steps, so that lines are
      conserved and keep their order. */
  lemma {:induction false} LoopIsRun(s: System, slots: seq<(seq<Act>, seq<Act>)>) returns (acts: seq<Act>)
    requires Feasible(s, slots)
    ensures OneAfterTheOther(s, slots, acts) && Run(s, acts) && Reached(s, acts) == Interleaved(s, slots)
    decreases |slots|
  {
    if slots == [] {
      acts := [];
    } else {
      hide FeasibleSlot, AfterSlot, Run, Reached, SlotActs;
      SlotIsRun(s, slots[0]);
      var first := SlotActs(s, slots[0]);
      var rest := LoopIsRun(AfterSlot(s, slots[0]), slots[1..]);
      RunJoined(s, first, rest);
      acts := first + rest;
      assert acts[|first|..] == rest;
    }
  }

  /** With no other thread in between, as many rounds as there are items write them all,
      in order, to the open file. */
  lemma {:induction false} DrainsAlone(s: System, slots: seq<(seq<Act>, seq<Act>)>)
    requires s.isAsync && s.writer.Popping? && s.logger.split > 0
    requires |slots| == |s.queue| && forall i :: 0 <= i < |slots| ==> slots[i] == ([], [])
    ensures Feasible(s, slots)
    ensures Interleaved(s, slots) == s.(queue := [], writes := s.writes + Written(s.logger.file, s.queue))
    decreases |slots|
  {
    if slots == [] {
      assert s.writes + Written(s.logger.file, s.queue) == s.writes;
    } else {
      var t := AfterSlotAlone(s, slots[0]);
      DrainsAlone(t, slots[1..]);
      var w, q := Write(s.logger.file, s.queue[0], true), s.queue;
      assert Written(s.logger.file, q) == [w] + Written(s.logger.file, q[1..]);
      assert s.writes + Written(s.logger.file, q) == s.writes + [w] + Written(s.logger.file, q[1..]);
    }
  }

  lemma AfterSlotAlone(s: System, slot: (seq<Act>, seq<Act>)) returns (t: System)
    requires s.isAsync && s.writer.Popping? && s.logger.split > 0 && s.queue != [] && slot == ([], [])
    ensures FeasibleSlot(s, slot) && AfterSlot(s, slot) == t
    ensures t == s.(queue := s.queue[1..], writes := s.writes + [Write(s.logger.file, s.queue[0], true)])
  {
    t := AfterSlot(s, slot);
  }

  lemma FputsEnabled(s: System)
    requires Enabled(s, Fputs)
    ensures s.writer.Holding?
  {
  }

  lemma {:induction false} LoggersKeepWriter(s: System, acts: seq<Act>)
    requires Run(s, acts) && ByLoggers(acts)
    ensures Reached(s, acts).writer == s.writer && Reached(s, acts).isAsync == s.isAsync
    decreases |acts|
  {
    if acts != [] {
      LoggersKeepWriter(Step(s, acts[0]), acts[1..]);
    }
  }

  function WriteAll(s: System, entries: seq<(Date, Line)>): System
    requires s.logger.split > 0 && |s.producers| == 1 && s.producers[0].Idle?
    decreases |entries|
  {
    if entries == [] then s else WriteAll(WriteLog(s, entries[0].0, entries[0].1), entries[1..])
  }

  function Days(entries: seq<(Date, Line)>): seq<Date> {
    if entries == [] then [] else [entries[0].0] + Days(entries[1..])
  }

  function Places(ws: seq<Write>): (fs: seq<FileName>)
    ensures |fs| == |ws|
  {
    seq(|ws|, i requires 0 <= i < |ws| => ws[i].file)
  }

  lemma {:induction false} PlacesAfter(s: System, entries: seq<(Date, Line)>)
    requires s.logger.split > 0 && |s.producers| == 1 && s.producers[0].Idle? && !s.isAsync
    ensures Places(WriteAll(s, entries).writes) == Places(s.writes) + Files(s.logger, Days(entries))
    decreases |entries|
  {
    if entries != [] {
      var t := WriteLog(s, entries[0].0, entries[0].1);
      PlacesAfter(t, entries[1..]);
      var file := Turned(s.logger, entries[0].0).file;
      assert Places(t.writes) == Places(s.writes) + [file];
      assert Days(entries)[0] == entries[0].0 && Days(entries)[1..] == Days(entries[1..]);
      assert Files(s.logger, Days(entries)) == [file] + Files(t.logger, Days(entries[1..]));
    }
  }

  /** One thread, no queue, a clock that does not go back: no file receives more than
      m_split_lines lines. */
  lemma QuotaInFiles(day: Date, split: int, entries: seq<(Date, Line)>)
    requires split > 0 && ClockForward(day, Days(entries))
    ensures var s := WriteAll(Init(day, split, 0, 1), entries);
            forall f :: multiset(Places(s.writes))[f] <= split
  {
    var i := Init(day, split, 0, 1);
    PlacesAfter(i, entries);
    assert Places(i.writes) + Files(i.logger, Days(entries)) == Files(Opened(day, split), Days(entries));
    NoFileOverfull(day, split, Days(entries));
  }

  class Log {
    const m_split_lines: int
    const m_is_async: bool
    const m_log_queue: BlockQueue?<Line>
    var m_count: nat
    var m_today: int
    var m_fp: FileName
    /** What fputs has written so far, to whichever file was open. */
    var written: seq<Write>
    /** Where the threads stand, with the line each has formatted. */
    var producers: seq<Producer>
    var writer: Writer
    ghost var logged: seq<Line>
    ghost var queued: seq<Line>
    ghost var lost: seq<Line>

    ghost function Queue(): (objects: set<object>) {
      if m_log_queue == null then {} else {m_log_queue, m_log_queue.m_array}
    }

    ghost predicate Valid()
      reads this, Queue()
    {
      && m_split_lines > 0
      && (m_is_async <==> m_log_queue != null)
      && (m_is_async ==> m_log_queue.Valid())
      && forall p :: 0 <= p < |producers| && producers[p].Pushing? ==> m_is_async
    }

    ghost function Queued(): seq<Line>
      requires Valid()
      reads this, Queue()
    {
      if m_is_async then m_log_queue.Contents() else []
    }

    ghost function Now(): System
      requires Valid()
      reads this, Queue()
    {
      System(Logger(m_today, m_count, m_fp, m_split_lines), m_is_async, Queued(),
             if m_is_async then m_log_queue.m_max_size else 0, producers, writer, written, logged, queued, lost)
    }

    /** init; a max_queue_size of at least 1 makes the logger asynchronous. */
    constructor (day: Date, split_lines: int, max_queue_size: nat, threads: nat)
      requires split_lines > 0
      ensures Valid() && fresh(Queue())
      ensures Now() == Init(day, split_lines, max_queue_size, threads)
    {
      m_split_lines := split_lines;
      m_is_async := max_queue_size >= 1;
      if max_queue_size >= 1 {
        m_log_queue := new BlockQueue<Line>(max_queue_size);
      } else {
        m_log_queue := null;
      }
      m_count := 0;
      m_today := day.mday;
      m_fp := FileName(day, 0);
      written := [];
      producers, writer, logged, queued, lost := seq(threads, _ => Idle), Popping, [], [], [];
    }

    /** write_log up to the second unlock: count the line, turn to another file if need
        be, format. */
    method turn(p: nat, day: Date, line: Line)
      requires Valid() && Enabled(Now(), Turn(p, day, line))
      modifies this
      ensures Valid() && Now() == Step(old(Now()), Turn(p, day, line))
      ensures m_today == day.mday && logged == old(logged) + [line] && written == old(written)
      ensures old(m_today) != day.mday ==> m_count == 0 && m_fp == FileName(day, 0)
      ensures old(m_today) == day.mday ==>
                && m_count == old(m_count) + 1
                && m_fp == if m_count % m_split_lines == 0 then FileName(day, m_count / m_split_lines) else old(m_fp)
    {
      m_count := m_count + 1;
      if m_today != day.mday || m_count % m_split_lines == 0 {
        if m_today != day.mday {
          m_fp := FileName(day, 0);
          m_today := day.mday;
          m_count := 0;
        } else {
          m_fp := FileName(day, m_count / m_split_lines);
        }
      }
      logged := logged + [line];
      producers := producers[p := Formatted(line)];
    }

    method check(p: nat) returns (push: bool)
      requires Valid() && Enabled(Now(), Check(p))
      modifies this`producers
      ensures Valid() && Now() == Step(old(Now()), Check(p)) && push == producers[p].Pushing?
      ensures push <==> m_is_async && |Queued()| < m_log_queue.m_max_size
    {
      var full := false;
      if m_is_async {
        full := m_log_queue.full();
      }
      push := m_is_async && !full;
      producers := producers[p := if push then Pushing(producers[p].line) else Putting(producers[p].line)];
    }

    /** m_log_queue->push; its result is not looked at. */
    method enqueue(p: nat, line: Line)
      requires Valid() && Enabled(Now(), Enqueue(p)) && line == producers[p].line
      modifies this`producers, this`queued, this`lost, Queue()
      ensures Valid() && Now() == Step(old(Now()), Enqueue(p))
      ensures if old(|Queued()|) < m_log_queue.m_max_size
              then Queued() == old(Queued()) + [line] && lost == old(lost)
              else Queued() == old(Queued()) && lost == old(lost) + [line]
    {
      hide Turned;
      var ok := m_log_queue.push(line);
      producers := producers[p := Idle];
      if ok {
        queued := queued + [line];
      } else {
        lost := lost + [line];
      }
    }

    method put(p: nat, line: Line)
      requires Valid() && Enabled(Now(), Put(p)) && line == producers[p].line
      modifies this`producers, this`written
      ensures Valid() && Now() == Step(old(Now()), Put(p))
      ensures written == old(written) + [Write(m_fp, line, false)]
    {
      written := written + [Write(m_fp, line, false)];
      producers := producers[p := Idle];
    }

    /** write_log with no other thread in between. */
    method write_log(day: Date, line: Line)
      requires Valid() && producers != [] && producers[0].Idle?
      modifies this, Queue()
      ensures Valid() && Now() == WriteLog(old(Now()), day, line)
      ensures logged == old(logged) + [line] && lost == old(lost) && producers == old(producers)
      ensures if m_is_async && old(|Queued()|) < m_log_queue.m_max_size
              then Queued() == old(Queued()) + [line] && written == old(written)
              else Queued() == old(Queued()) && written == old(written) + [Write(m_fp, line, false)]
    {
      turn(0, day, line);
      var push := check(0);
      if push {
        enqueue(0, line);
      } else {
        put(0, line);
      }
    }

    /** Other threads, while the writing thread does not hold the mutex. */
    method others(acts: seq<Act>)
      requires Valid() && ByLoggers(acts) && Run(Now(), acts)
      modifies this, Queue()
      ensures Valid() && Now() == Reached(old(Now()), acts)
    {
      hide Step, Enabled;
      var i := 0;
      while i < |acts|
        invariant 0 <= i <= |acts| && Valid() && Run(Now(), acts[i..])
        invariant Reached(Now(), acts[i..]) == Reached(old(Now()), acts)
      {
        assert acts[i..][0] == acts[i] && acts[i..][1..] == acts[i + 1..];
        act(acts[i]);
        i := i + 1;
      }
    }

    method act(a: Act)
      requires Valid() && !a.Dequeue? && !a.Fputs? && Enabled(Now(), a)
      modifies this, Queue()
      ensures Valid() && Now() == Step(old(Now()), a)
    {
      hide Step;
      match a {
        case Turn(p, day, line) => turn(p, day, line);
        case Check(p) =>
          var _ := check(p);
        case Enqueue(p) => enqueue(p, producers[p].line);
        case Put(p) => put(p, producers[p].line);
      }
    }

    /** pop, when there is an item or none. */
    method dequeue() returns (ok: bool)
      requires Valid() && m_is_async && writer.Popping?
      modifies this`writer, Queue()
      ensures Valid() && (ok <==> old(Queued()) != []) && (ok ==> writer.Holding?) && (!ok ==> writer.Popping?)
      ensures Now() == if ok then Step(old(Now()), Dequeue) else old(Now())
      ensures ok ==> old(Queued()) == [writer.line] + Queued()
    {
      var single_log := m_log_queue.pop([]);
      ok := single_log.Item?;
      if ok {
        writer := Holding(single_log.value);
      }
    }

    /** The locked fputs. */
    method fputs()
      requires Valid() && writer.Holding?
      modifies this`writer, this`written
      ensures Valid() && Now() == Step(old(Now()), Fputs) && writer.Popping?
      ensures written == old(written) + [Write(m_fp, old(writer.line), true)]
    {
      written := written + [Write(m_fp, writer.line, true)];
      writer := Popping;
    }

    /** The writing thread among the others: before each pop they do the first acts of a
        slot, and between pop and fputs the second; in a slot without an item pop waits. */
    method async_write_log(slots: seq<(seq<Act>, seq<Act>)>)
      requires Valid() && m_is_async && writer.Popping? && Feasible(Now(), slots)
      modifies this, Queue()
      ensures Valid() && Now() == Interleaved(old(Now()), slots)
    {
      hide Step, Run, Reached, Enabled;
      var i := 0;
      while i < |slots|
        invariant 0 <= i <= |slots| && Valid() && writer.Popping? && Feasible(Now(), slots[i..])
        invariant Interleaved(Now(), slots[i..]) == Interleaved(old(Now()), slots)
      {
        assert slots[i..][0] == slots[i] && slots[i..][1..] == slots[i + 1..];
        one_line(slots[i]);
        i := i + 1;
      }
    }

    /** One round of its loop. */
    method one_line(slot: (seq<Act>, seq<Act>))
      requires Valid() && m_is_async && writer.Popping? && FeasibleSlot(Now(), slot)
      modifies this, Queue()
      ensures Valid() && writer.Popping? && Now() == AfterSlot(old(Now()), slot)
    {
      hide Step, Run, Reached, Enabled, ByLoggers;
      ghost var s := Now();
      LoggersKeepWriter(s, slot.0);
      others(slot.0);
      ghost var t := Now();
      assert t == Reached(s, slot.0);
      var ok := dequeue();
      if ok {
        ghost var u := Now();
        assert u == Step(t, Dequeue);
        others(slot.1);
        FputsEnabled(Now());
        fputs();
      }
    }
  }
}
