/** The quota of the log files when the clock is set back: exactly when a run of log lines
    overfills a file. */
module LogQuota {
  import opened LogRotation
  import opened Quotients

  /** So many lines, one after the other, on the same day. */
  datatype Visit = Visit(day: Date, lines: nat)

  /** The first visit is to the day on which the log is opened, and may log nothing; later
      visits log something, and change the day of the month. */
  ghost predicate Visits(vs: seq<Visit>)
    decreases |vs|
  {
    vs != [] &&
    var n := |vs| - 1;
    n > 0 ==> Visits(vs[..n]) && vs[n].lines > 0 && vs[n].day.mday != vs[n - 1].day.mday
  }

  function Repeat<T>(x: T, n: nat): (s: seq<T>)
    ensures |s| == n
  {
    seq(n, _ => x)
  }

  /** The days of the lines. */
  function DaysOf(vs: seq<Visit>): seq<Date> {
    if vs == [] then []
    else DaysOf(vs[..|vs| - 1]) + Repeat(vs[|vs| - 1].day, vs[|vs| - 1].lines)
  }

  /** Every run in which each change of date changes the day of the month is made of visits. */
  lemma {:induction false} MadeOfVisits(day: Date, days: seq<Date>) returns (vs: seq<Visit>)
    requires DaysOfMonthDiffer(day, days)
    ensures Visits(vs) && vs[0].day == day && DaysOf(vs) == days
    ensures vs[|vs| - 1].day == Last(day, days)
    decreases |days|
  {
    hide Visits, DaysOf, DaysOfMonthDiffer;
    if days == [] {
      vs := [Visit(day, 0)];
      JustOpened(day);
    } else {
      var n := |days| - 1;
      DifferInPrefix(day, days, n);
      vs := MadeOfVisits(day, days[..n]);
      assert days == days[..n] + [days[n]] && Last(day, days) == days[n];
      hide *;
      vs := OneMoreLine(vs, days[n]);
    }
  }

  lemma JustOpened(day: Date)
    ensures Visits([Visit(day, 0)]) && DaysOf([Visit(day, 0)]) == []
  {
    var vs := [Visit(day, 0)];
    assert vs[..0] == [];
  }

  lemma {:induction false} DifferInPrefix(day: Date, days: seq<Date>, n: nat)
    requires DaysOfMonthDiffer(day, days) && n < |days|
    ensures DaysOfMonthDiffer(day, days[..n])
    ensures days[n] == Last(day, days[..n]) || days[n].mday != Last(day, days[..n]).mday
    decreases n
  {
    if n > 0 {
      DifferInPrefix(days[0], days[1..], n - 1);
      assert days[..n][1..] == days[1..][..n - 1];
    }
  }

  lemma OneMoreLine(vs: seq<Visit>, d: Date) returns (ws: seq<Visit>)
    requires Visits(vs) && (d == vs[|vs| - 1].day || d.mday != vs[|vs| - 1].day.mday)
    ensures Visits(ws) && ws[0].day == vs[0].day && ws[|ws| - 1].day == d && DaysOf(ws) == DaysOf(vs) + [d]
  {
    if d == vs[|vs| - 1].day {
      ws := LongerVisit(vs);
    } else {
      ws := NewVisit(vs, d);
    }
    hide *;
  }

  lemma LongerVisit(vs: seq<Visit>) returns (ws: seq<Visit>)
    requires Visits(vs)
    ensures var d := vs[|vs| - 1].day;
            Visits(ws) && ws[0].day == vs[0].day && ws[|ws| - 1].day == d && DaysOf(ws) == DaysOf(vs) + [d]
  {
    hide DaysOf, Repeat;
    var last, front := vs[|vs| - 1], vs[..|vs| - 1];
    ws := front + [Visit(last.day, last.lines + 1)];
    assert ws[..|ws| - 1] == front;
    OneLineLonger(front, last);
    assert vs == front + [last];
  }

  lemma NewVisit(vs: seq<Visit>, d: Date) returns (ws: seq<Visit>)
    requires Visits(vs) && d.mday != vs[|vs| - 1].day.mday
    ensures Visits(ws) && ws[0].day == vs[0].day && ws[|ws| - 1].day == d && DaysOf(ws) == DaysOf(vs) + [d]
  {
    hide DaysOf, Repeat;
    ws := vs + [Visit(d, 1)];
    assert ws[..|ws| - 1] == vs;
    DaysOfMore(vs, Visit(d, 1));
    RepeatMore(d, 0);
    assert Repeat(d, 1) == [d];
  }

  lemma OneLineLonger(vs: seq<Visit>, v: Visit)
    ensures DaysOf(vs + [Visit(v.day, v.lines + 1)]) == DaysOf(vs + [v]) + [v.day]
  {
    hide *;
    DaysOfMore(vs, v);
    DaysOfMore(vs, Visit(v.day, v.lines + 1));
    RepeatMore(v.day, v.lines);
    assert DaysOf(vs) + (Repeat(v.day, v.lines) + [v.day]) == DaysOf(vs) + Repeat(v.day, v.lines) + [v.day];
  }

  lemma DaysOfMore(vs: seq<Visit>, v: Visit)
    ensures DaysOf(vs + [v]) == DaysOf(vs) + Repeat(v.day, v.lines)
  {
    assert (vs + [v])[..|vs + [v]| - 1] == vs;
  }

  lemma RepeatMore<T>(x: T, n: nat)
    ensures Repeat(x, n + 1) == Repeat(x, n) + [x] && Repeat(x, 0) == []
    ensures Repeat(x, n + 1) == [x] + Repeat(x, n) && Repeat(x, n + 1)[1..] == Repeat(x, n)
  {
  }

  // --- the files of one visit ------------------------------------------------------------------

  /** The files of `lines` lines on day d, the first of them the line number `from`. */
  function FilesOf(d: Date, from: nat, lines: nat, split: nat): (fs: seq<FileName>)
    requires split > 0
    ensures |fs| == lines
  {
    seq(lines, i requires 0 <= i < lines => FileName(d, (from + i) / split))
  }

  /** Lines on the day whose file is open. */
  lemma {:induction false} SameDayFiles(l: Logger, d: Date, lines: nat)
    requires Named(l, d) && l.file.day == d
    ensures Files(l, Repeat(d, lines)) == FilesOf(d, l.count + 1, lines, l.split)
    ensures var r := After(l, Repeat(d, lines)); Named(r, d) && r.file.day == d && r.count == l.count + lines
    decreases lines
  {
    if lines > 0 {
      var t := Turned(l, d);
      TurnKeepsName(l, d, d);
      NameStaysExactly(l, d, d);
      assert Repeat(d, lines)[1..] == Repeat(d, lines - 1);
      SameDayFiles(t, d, lines - 1);
      var whole, rest := FilesOf(d, l.count + 1, lines, l.split), FilesOf(d, t.count + 1, lines - 1, l.split);
      assert forall i :: 0 <= i < lines - 1 ==> whole[i + 1] == rest[i];
      assert whole == [t.file] + rest;
    }
  }

  /** Lines on another day: its own file is opened, and counting starts from 0. */
  lemma NewDayFiles(l: Logger, day: Date, d: Date, lines: nat)
    requires Named(l, day) && d.mday != day.mday && lines > 0
    ensures Files(l, Repeat(d, lines)) == FilesOf(d, 0, lines, l.split)
    ensures var r := After(l, Repeat(d, lines)); Named(r, d) && r.file.day == d
  {
    var t := Turned(l, d);
    TurnKeepsName(l, day, d);
    assert t.file == FileName(d, 0) && t.count == 0;
    RepeatMore(d, lines - 1);
    SameDayFiles(t, d, lines - 1);
    FirstFile(d, lines, l.split);
    hide FilesOf, Turned, Repeat;
  }

  lemma FirstFile(d: Date, lines: nat, split: nat)
    requires lines > 0 && split > 0
    ensures FilesOf(d, 0, lines, split) == [FileName(d, 0)] + FilesOf(d, 1, lines - 1, split)
  {
    var whole, rest := FilesOf(d, 0, lines, split), FilesOf(d, 1, lines - 1, split);
    assert forall i :: 0 <= i < lines - 1 ==> whole[i + 1] == rest[i];
    Quotient(0, 0, 0, split);
  }

  // --- the files of a run ------------------------------------------------------------------------

  /** Line numbers start from 1 when the log is opened, from 0 on every later new day. */
  function From(i: nat): nat { if i == 0 then 1 else 0 }

  function FilesOfRun(vs: seq<Visit>, split: nat): seq<FileName>
    requires split > 0
  {
    if vs == [] then []
    else
      var last := |vs| - 1;
      FilesOfRun(vs[..last], split) + FilesOf(vs[last].day, From(last), vs[last].lines, split)
  }

  lemma {:induction false} FilesJoined(l: Logger, x: seq<Date>, y: seq<Date>)
    requires l.split > 0
    ensures Files(l, x + y) == Files(l, x) + Files(After(l, x), y)
    ensures After(l, x + y) == After(After(l, x), y)
    decreases |x|
  {
    if x == [] {
      assert x + y == y;
    } else {
      assert (x + y)[1..] == x[1..] + y && (x + y)[0] == x[0];
      FilesJoined(Turned(l, x[0]), x[1..], y);
    }
  }

  lemma {:induction false} RunFiles(vs: seq<Visit>, split: nat)
    requires Visits(vs) && split > 0
    ensures var l := Opened(vs[0].day, split);
            var r := After(l, DaysOf(vs));
            && Files(l, DaysOf(vs)) == FilesOfRun(vs, split)
            && Named(r, vs[|vs| - 1].day) && r.file.day == vs[|vs| - 1].day
    decreases |vs|
  {
    var n := |vs| - 1;
    var l, front, last := Opened(vs[0].day, split), vs[..n], vs[n];
    Quotient(0, 0, 0, split);
    if n == 0 {
      assert DaysOf(vs) == [] + Repeat(last.day, last.lines) == Repeat(last.day, last.lines);
      SameDayFiles(l, last.day, last.lines);
      assert FilesOfRun(vs, split) == [] + FilesOf(last.day, 1, last.lines, split);
    } else {
      RunFiles(front, split);
      FilesJoined(l, DaysOf(front), Repeat(last.day, last.lines));
      NewDayFiles(After(l, DaysOf(front)), front[n - 1].day, last.day, last.lines);
    }
  }

  // --- counting ----------------------------------------------------------------------------------

  /** How many of the numbers below x have the quotient p. */
  function Upto(x: nat, p: nat, split: nat): nat
  {
    if x <= p * split then 0 else if x - p * split <= split then x - p * split else split
  }

  lemma UptoNext(x: nat, p: nat, split: nat)
    requires split > 0
    ensures Upto(x + 1, p, split) == Upto(x, p, split) + if x / split == p then 1 else 0
  {
    var q := x / split;
    assert x == q * split + x % split;
    if q < p {
      MulMonotone(q + 1, p, split);
      assert (q + 1) * split == q * split + split;
    } else if q > p {
      MulMonotone(p + 1, q, split);
      assert (p + 1) * split == p * split + split;
    }
  }

  lemma {:induction false} FilesCounted(d: Date, from: nat, lines: nat, split: nat, e: Date, p: nat)
    requires split > 0
    ensures multiset(FilesOf(d, from, lines, split))[FileName(e, p)]
            == if d == e then Upto(from + lines, p, split) - Upto(from, p, split) else 0
    decreases lines
  {
    if lines > 0 {
      FilesCounted(d, from, lines - 1, split, e, p);
      var x := from + lines - 1;
      UptoNext(x, p, split);
      assert FilesOf(d, from, lines, split) == FilesOf(d, from, lines - 1, split) + [FileName(d, x / split)];
    }
  }

  /** What visit i puts into the part p of day e. */
  function Put(vs: seq<Visit>, i: nat, e: Date, p: nat, split: nat): int
    requires i < |vs|
  {
    if vs[i].day == e then Upto(From(i) + vs[i].lines, p, split) - Upto(From(i), p, split) else 0
  }

  /** ... and the first n visits. */
  function Total(vs: seq<Visit>, n: nat, e: Date, p: nat, split: nat): int
    requires n <= |vs|
  {
    if n == 0 then 0 else Total(vs, n - 1, e, p, split) + Put(vs, n - 1, e, p, split)
  }

  lemma {:induction false} TotalOfPrefix(vs: seq<Visit>, m: nat, n: nat, e: Date, p: nat, split: nat)
    requires n <= m <= |vs|
    ensures Total(vs[..m], n, e, p, split) == Total(vs, n, e, p, split)
    decreases n
  {
    if n > 0 {
      TotalOfPrefix(vs, m, n - 1, e, p, split);
    }
  }

  lemma {:induction false} RunCounted(vs: seq<Visit>, e: Date, p: nat, split: nat)
    requires split > 0
    ensures multiset(FilesOfRun(vs, split))[FileName(e, p)] == Total(vs, |vs|, e, p, split)
    decreases |vs|
  {
    if vs != [] {
      var n := |vs| - 1;
      RunCounted(vs[..n], e, p, split);
      TotalOfPrefix(vs, n, n, e, p, split);
      FilesCounted(vs[n].day, From(n), vs[n].lines, split, e, p);
      var x, y := FilesOfRun(vs[..n], split), FilesOf(vs[n].day, From(n), vs[n].lines, split);
      assert multiset(x + y) == multiset(x) + multiset(y);
    }
  }

  // --- the condition -----------------------------------------------------------------------------

  /** How often day e is visited with lines to log. */
  function Times(vs: seq<Visit>, n: nat, e: Date): nat
    requires n <= |vs|
  {
    if n == 0 then 0
    else Times(vs, n - 1, e) + if vs[n - 1].day == e && vs[n - 1].lines > 0 then 1 else 0
  }

  /** What visit i weighs for its day: its lines, but of the opening visit no more than
      fit the first file. */
  function Weight(vs: seq<Visit>, i: nat, split: nat): nat
    requires i < |vs| && split > 0
  {
    if i == 0 && vs[i].lines >= split then split - 1 else vs[i].lines
  }

  function Weights(vs: seq<Visit>, n: nat, e: Date, split: nat): nat
    requires n <= |vs| && split > 0
  {
    if n == 0 then 0
    else Weights(vs, n - 1, e, split) + if vs[n - 1].day == e then Weight(vs, n - 1, split) else 0
  }

  /** Day e is visited once, or its visits together stay within one file. */
  ghost predicate Fits(vs: seq<Visit>, e: Date, split: nat)
    requires split > 0
  {
    Times(vs, |vs|, e) <= 1 || Weights(vs, |vs|, e, split) <= split
  }

  lemma UptoZero(x: nat, split: nat)
    ensures Upto(x, 0, split) == if x <= split then x else split
  {
  }

  /** Before p * split there is nothing in part p. */
  lemma UptoLate(x: nat, p: nat, split: nat)
    requires x <= split && p > 0
    ensures Upto(x, p, split) == 0
  {
    MulMonotone(1, p, split);
  }

  /** One visit never overfills, puts no more than its weight into the first part, and
      exactly that if it fits. */
  lemma PutBounds(vs: seq<Visit>, i: nat, e: Date, p: nat, split: nat)
    requires i < |vs| && split > 0
    ensures 0 <= Put(vs, i, e, p, split) <= split
    ensures vs[i].day == e ==> Put(vs, i, e, 0, split) <= Weight(vs, i, split)
    ensures vs[i].day == e && (i == 0 || vs[i].lines <= split) ==> Put(vs, i, e, 0, split) == Weight(vs, i, split)
    ensures p > 0 && i > 0 && vs[i].lines <= split ==> Put(vs, i, e, p, split) == 0
    ensures vs[i].lines == 0 ==> Put(vs, i, e, p, split) == 0
  {
    var c := From(i);
    UptoZero(c, split);
    UptoZero(c + vs[i].lines, split);
    if p > 0 {
      UptoLate(c, p, split);
      if i > 0 && vs[i].lines <= split {
        UptoLate(vs[i].lines, p, split);
      }
    } else {
      assert p == 0;
    }
  }

  // --- the condition is enough ...

  lemma {:induction false} VisitedOnce(vs: seq<Visit>, n: nat, e: Date, p: nat, split: nat)
    requires n <= |vs| && split > 0 && Times(vs, n, e) <= 1
    ensures Total(vs, n, e, p, split) <= if Times(vs, n, e) == 0 then 0 else split
    decreases n
  {
    if n > 0 {
      VisitedOnce(vs, n - 1, e, p, split);
      hide Put;
      PutBounds(vs, n - 1, e, p, split);
      PutElsewhere(vs, n - 1, e, p, split);
    }
  }

  lemma PutElsewhere(vs: seq<Visit>, i: nat, e: Date, p: nat, split: nat)
    requires i < |vs|
    ensures vs[i].day != e ==> Put(vs, i, e, p, split) == 0
  {
  }

  lemma {:induction false} FirstPart(vs: seq<Visit>, n: nat, e: Date, split: nat)
    requires n <= |vs| && split > 0
    ensures Total(vs, n, e, 0, split) <= Weights(vs, n, e, split)
    ensures (forall i :: 0 < i < n && vs[i].day == e ==> vs[i].lines <= split) ==>
              Total(vs, n, e, 0, split) == Weights(vs, n, e, split)
    decreases n
  {
    if n > 0 {
      FirstPart(vs, n - 1, e, split);
      hide Put, Weight;
      PutBounds(vs, n - 1, e, 0, split);
      PutElsewhere(vs, n - 1, e, 0, split);
    }
  }

  lemma {:induction false} LaterPart(vs: seq<Visit>, n: nat, e: Date, p: nat, split: nat)
    requires n <= |vs| && split > 0 && p > 0 && Weights(vs, n, e, split) <= split
    ensures Total(vs, n, e, p, split) <= split
    ensures n > 0 ==> Total(vs, n, e, p, split) == Put(vs, 0, e, p, split)
    decreases n
  {
    if n > 0 {
      LaterPart(vs, n - 1, e, p, split);
      PutBounds(vs, n - 1, e, p, split);
      PutElsewhere(vs, n - 1, e, p, split);
      hide Put;
    }
  }

  // --- ... and needed

  lemma {:induction false} OnlyVisit(vs: seq<Visit>, n: nat, e: Date, i: nat)
    requires n <= |vs|
    requires forall j :: 0 <= j < n && j != i ==> vs[j].day != e || vs[j].lines == 0
    ensures Times(vs, n, e) <= if i < n then 1 else 0
    decreases n
  {
    if n > 0 {
      OnlyVisit(vs, n - 1, e, i);
    }
  }

  lemma {:induction false} TotalIsMore(vs: seq<Visit>, n: nat, e: Date, p: nat, split: nat, i: nat, j: nat)
    requires n <= |vs| && split > 0 && i < |vs| && j < |vs| && i != j
    ensures Total(vs, n, e, p, split) >= (if i < n then Put(vs, i, e, p, split) else 0)
                                         + (if j < n then Put(vs, j, e, p, split) else 0)
    decreases n
  {
    hide Put;
    if n > 0 {
      TotalIsMore(vs, n - 1, e, p, split, i, j);
      PutBounds(vs, n - 1, e, p, split);
    }
  }

  /** A later visit longer than a file and another one do not go together. */
  lemma LongVisitOverfills(vs: seq<Visit>, e: Date, split: nat, i: nat, j: nat)
    requires split > 0 && i < |vs| && j < |vs| && i != j && i > 0
    requires vs[i].day == e == vs[j].day && vs[i].lines > split && vs[j].lines > 0
    ensures Put(vs, i, e, 0, split) + Put(vs, j, e, 0, split) > split
            || Put(vs, i, e, 1, split) + Put(vs, j, e, 1, split) > split
  {
  }

  lemma ConditionNeeded(vs: seq<Visit>, e: Date, split: nat)
    requires split > 0 && !Fits(vs, e, split)
    ensures Total(vs, |vs|, e, 0, split) > split || Total(vs, |vs|, e, 1, split) > split
  {
    if forall i :: 0 < i < |vs| && vs[i].day == e ==> vs[i].lines <= split {
      FirstPart(vs, |vs|, e, split);
    } else {
      var i :| 0 < i < |vs| && vs[i].day == e && vs[i].lines > split;
      if forall j :: 0 <= j < |vs| && j != i ==> vs[j].day != e || vs[j].lines == 0 {
        OnlyVisit(vs, |vs|, e, i);
        assert false;
      }
      var j :| 0 <= j < |vs| && j != i && vs[j].day == e && vs[j].lines > 0;
      LongVisitOverfills(vs, e, split, i, j);
      TotalIsMore(vs, |vs|, e, 0, split, i, j);
      TotalIsMore(vs, |vs|, e, 1, split, i, j);
    }
  }

  /** No file gets more than m_split_lines lines iff every day that is visited more than
      once has visits that fit one file together; for a clock that goes back as it likes. */
  lemma QuotaExactly(vs: seq<Visit>, split: nat)
    requires Visits(vs) && split > 0
    ensures (forall f :: multiset(Files(Opened(vs[0].day, split), DaysOf(vs)))[f] <= split)
            <==> forall e :: Fits(vs, e, split)
  {
    RunFiles(vs, split);
    var had := multiset(Files(Opened(vs[0].day, split), DaysOf(vs)));
    if forall e :: Fits(vs, e, split) {
      forall f ensures had[f] <= split {
        if f.part < 0 {
          NoNegativePart(vs, f, split);
        } else {
          RunCounted(vs, f.day, f.part, split);
          ConditionEnough(vs, f.day, f.part, split);
        }
      }
    } else {
      var e :| !Fits(vs, e, split);
      ConditionNeeded(vs, e, split);
      RunCounted(vs, e, 0, split);
      RunCounted(vs, e, 1, split);
      assert had[FileName(e, 0)] > split || had[FileName(e, 1)] > split;
    }
  }

  lemma ConditionEnough(vs: seq<Visit>, e: Date, p: nat, split: nat)
    requires split > 0 && Fits(vs, e, split)
    ensures Total(vs, |vs|, e, p, split) <= split
  {
    if Times(vs, |vs|, e) <= 1 {
      VisitedOnce(vs, |vs|, e, p, split);
    } else if p == 0 {
      FirstPart(vs, |vs|, e, split);
    } else {
      LaterPart(vs, |vs|, e, p, split);
    }
  }

  lemma {:induction false} NoNegativePart(vs: seq<Visit>, f: FileName, split: nat)
    requires split > 0 && f.part < 0
    ensures multiset(FilesOfRun(vs, split))[f] == 0
    decreases |vs|
  {
    if vs != [] {
      var n := |vs| - 1;
      NoNegativePart(vs[..n], f, split);
      var x, y := FilesOfRun(vs[..n], split), FilesOf(vs[n].day, From(n), vs[n].lines, split);
      hide FilesOf;
      PartsCountUp(vs[n].day, From(n), vs[n].lines, split, f);
      assert multiset(x + y) == multiset(x) + multiset(y);
    }
  }

  lemma PartsCountUp(d: Date, from: nat, lines: nat, split: nat, f: FileName)
    requires split > 0 && f.part < 0
    ensures f !in FilesOf(d, from, lines, split)
  {
  }

  /** The log is opened on d; then come n lines on e, m on d again, and k on e again: the
      quota holds iff both visits to e fit one file. */
  lemma SetBackExactly(d: Date, e: Date, n: nat, m: nat, k: nat, split: nat)
    requires d.mday != e.mday && n > 0 && m > 0 && k > 0 && split > 0
    ensures (forall f :: multiset(Files(Opened(d, split), Repeat(e, n) + Repeat(d, m) + Repeat(e, k)))[f] <= split)
            <==> n + k <= split
  {
    var vs := [Visit(d, 0), Visit(e, n), Visit(d, m), Visit(e, k)];
    var v1, v2, v3 := vs[..1], vs[..2], vs[..3];
    assert v1[..0] == [] && v2[..1] == v1 && v3[..2] == v2;
    assert DaysOf(v1) == [];
    assert DaysOf(v2) == Repeat(e, n);
    assert DaysOf(v3) == Repeat(e, n) + Repeat(d, m);
    assert DaysOf(vs) == Repeat(e, n) + Repeat(d, m) + Repeat(e, k);
    hide Fits;
    assert Visits(v1) && Visits(v2) && Visits(v3);
    QuotaExactly(vs, split);
    forall day ensures Fits(vs, day, split) <==> day != e || n + k <= split {
      SetBackFits(d, e, n, m, k, split, day);
    }
    assert Fits(vs, e, split) <==> n + k <= split;
  }

  lemma SetBackFits(d: Date, e: Date, n: nat, m: nat, k: nat, split: nat, day: Date)
    requires d.mday != e.mday && n > 0 && m > 0 && k > 0 && split > 0
    ensures Fits([Visit(d, 0), Visit(e, n), Visit(d, m), Visit(e, k)], day, split) <==> day != e || n + k <= split
  {
    FourVisits([Visit(d, 0), Visit(e, n), Visit(d, m), Visit(e, k)], day, split);
    hide Times, Weights;
  }

  lemma FourVisits(vs: seq<Visit>, e: Date, split: nat)
    requires split > 0 && |vs| == 4 && vs[0].lines == 0
    ensures Times(vs, 4, e) == (if vs[1].day == e && vs[1].lines > 0 then 1 else 0)
                               + (if vs[2].day == e && vs[2].lines > 0 then 1 else 0)
                               + (if vs[3].day == e && vs[3].lines > 0 then 1 else 0)
    ensures Weights(vs, 4, e, split) == (if vs[1].day == e then vs[1].lines else 0)
                                        + (if vs[2].day == e then vs[2].lines else 0)
                                        + (if vs[3].day == e then vs[3].lines else 0)
  {
    assert Times(vs, 1, e) == 0 && Weights(vs, 1, e, split) == 0;
    assert Times(vs, 2, e) == if vs[1].day == e && vs[1].lines > 0 then 1 else 0;
    assert Weights(vs, 2, e, split) == if vs[1].day == e then vs[1].lines else 0;
    assert Times(vs, 4, e) == Times(vs, 3, e) + if vs[3].day == e && vs[3].lines > 0 then 1 else 0;
    assert Times(vs, 3, e) == Times(vs, 2, e) + if vs[2].day == e && vs[2].lines > 0 then 1 else 0;
    assert Weights(vs, 3, e, split) == Weights(vs, 2, e, split) + if vs[2].day == e then vs[2].lines else 0;
  }
}
