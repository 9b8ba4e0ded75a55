/** Which file the logger has open: a new one every day and every m_split_lines lines. */
module LogRotation {
  import opened Quotients

  datatype Date = Date(year: int, mon: int, mday: int)

  /** dir_name + date + log_name, with ".part" behind it unless part is 0. */
  datatype FileName = FileName(day: Date, part: int)

  datatype Logger = Logger(today: int, count: nat, file: FileName, split: int)

  /** What init leaves, on day d. */
  function Opened(d: Date, split: int): Logger {
    Logger(d.mday, 0, FileName(d, 0), split)
  }

  /** The first locked region of write_log, on day d. */
  function Turned(l: Logger, d: Date): (r: Logger)
    requires l.split > 0
    ensures r.split == l.split
  {
    var count := l.count + 1;
    if l.today != d.mday then Logger(d.mday, 0, FileName(d, 0), l.split)
    else if count % l.split == 0 then l.(count := count, file := FileName(d, count / l.split))
    else l.(count := count)
  }

  /** One write_log after the other, on these days. */
  function After(l: Logger, days: seq<Date>): (r: Logger)
    requires l.split > 0
    ensures r.split == l.split
    decreases |days|
  {
    if days == [] then l else After(Turned(l, days[0]), days[1..])
  }

  /** The file that is open for each of the lines. */
  function Files(l: Logger, days: seq<Date>): (fs: seq<FileName>)
    requires l.split > 0
    ensures |fs| == |days|
    decreases |days|
  {
    if days == [] then [] else [Turned(l, days[0]).file] + Files(Turned(l, days[0]), days[1..])
  }

  function Last(day: Date, days: seq<Date>): Date {
    if days == [] then day else days[|days| - 1]
  }

  // --- the name of the open file ---------------------------------------------------------

  /** The part is right whatever the dates; of the day, the day of the month is. */
  ghost predicate Named(l: Logger, day: Date) {
    l.split > 0 && l.file.part == l.count / l.split && l.file.day.mday == l.today == day.mday
  }

  lemma NextPart(count: nat, split: int)
    requires split > 0
    ensures (count + 1) / split == count / split + (if (count + 1) % split == 0 then 1 else 0)
    ensures (count + 1) % split == if (count + 1) % split == 0 then 0 else count % split + 1
  {
    var k, r := count / split, count % split;
    assert count + 1 == k * split + (r + 1);
    if r + 1 == split {
      assert count + 1 == (k + 1) * split;
      Quotient(count + 1, k + 1, 0, split);
    } else {
      Quotient(count + 1, k, r + 1, split);
    }
  }

  lemma TurnKeepsName(l: Logger, day: Date, d: Date)
    requires Named(l, day)
    ensures Named(Turned(l, d), d)
  {
    NextPart(l.count, l.split);
    Quotient(0, 0, 0, l.split);
  }

  lemma {:induction false} NamedAfter(l: Logger, day: Date, days: seq<Date>)
    requires Named(l, day)
    ensures Named(After(l, days), Last(day, days))
    decreases |days|
  {
    if days != [] {
      TurnKeepsName(l, day, days[0]);
      NamedAfter(Turned(l, days[0]), days[0], days[1..]);
    }
  }

  /** A line keeps the file named by its own day exactly when the day is the last one, or
      differs from it in the day of the month, or the line is the m_split_lines-th. */
  lemma NameStaysExactly(l: Logger, day: Date, d: Date)
    requires Named(l, day) && l.file.day == day
    ensures Turned(l, d).file == FileName(d, Turned(l, d).count / l.split)
            <==> d == day || d.mday != day.mday || (l.count + 1) % l.split == 0
  {
    TurnKeepsName(l, day, d);
  }

  /** Every line finds open the file of its own day and part. */
  ghost predicate RightFiles(l: Logger, days: seq<Date>)
    requires l.split > 0
    decreases |days|
  {
    days != [] ==>
      var t := Turned(l, days[0]);
      t.file == FileName(days[0], t.count / t.split) && RightFiles(t, days[1..])
  }

  /** Every line is of the day of the line before, or of another day of the month, or opens the
      next part. */
  ghost predicate DatesTold(l: Logger, day: Date, days: seq<Date>)
    requires l.split > 0
    decreases |days|
  {
    days != [] ==>
      && (days[0] == day || days[0].mday != day.mday || (l.count + 1) % l.split == 0)
      && DatesTold(Turned(l, days[0]), days[0], days[1..])
  }

  /** Over any run every line finds the right file open exactly when every line meets the
      condition for one. */
  lemma {:induction false} RightFilesExactly(l: Logger, day: Date, days: seq<Date>)
    requires Named(l, day) && l.file.day == day
    ensures RightFiles(l, days) <==> DatesTold(l, day, days)
    decreases |days|
  {
    if days != [] {
      var t := Turned(l, days[0]);
      NameStaysExactly(l, day, days[0]);
      TurnKeepsName(l, day, days[0]);
      if t.file == FileName(days[0], t.count / t.split) {
        RightFilesExactly(t, days[0], days[1..]);
      }
    }
  }

  ghost predicate DaysOfMonthDiffer(day: Date, days: seq<Date>)
    decreases |days|
  {
    days != [] ==> (days[0] == day || days[0].mday != day.mday) && DaysOfMonthDiffer(days[0], days[1..])
  }

  /** If every change of date changes the day of the month, the open file is always
      (day of the last line, m_count / m_split_lines). */
  lemma {:induction false} OpenFileIsDayAndPart(l: Logger, day: Date, days: seq<Date>)
    requires Named(l, day) && l.file.day == day && DaysOfMonthDiffer(day, days)
    ensures After(l, days).file == FileName(Last(day, days), After(l, days).count / l.split)
    decreases |days|
  {
    if days != [] {
      TurnKeepsName(l, day, days[0]);
      OpenFileIsDayAndPart(Turned(l, days[0]), days[0], days[1..]);
    }
  }

  // --- how many lines a file gets ----------------------------------------------------------

  ghost predicate NotAfter(d: Date, e: Date) {
    d.year < e.year || (d.year == e.year && (d.mon < e.mon || (d.mon == e.mon && d.mday <= e.mday)))
  }

  ghost predicate ClockForward(day: Date, days: seq<Date>)
    decreases |days|
  {
    days != [] ==> NotAfter(day, days[0]) && ClockForward(days[0], days[1..])
  }

  ghost predicate Earlier(f: FileName, g: FileName) {
    NotAfter(f.day, g.day) && (f.day == g.day ==> f.part < g.part)
  }

  /** `had` is where the lines so far went. */
  ghost predicate WithinQuota(l: Logger, day: Date, had: multiset<FileName>) {
    && Named(l, day)
    && NotAfter(l.file.day, day)
    && (forall f <- had :: f == l.file || Earlier(f, l.file))
    && had[l.file] <= l.count % l.split + 1
    && forall f :: had[f] <= l.split
  }

  lemma TurnKeepsQuota(l: Logger, day: Date, had: multiset<FileName>, d: Date)
    requires WithinQuota(l, day, had) && NotAfter(day, d)
    ensures WithinQuota(Turned(l, d), d, had + multiset{Turned(l, d).file})
  {
    TurnKeepsName(l, day, d);
    NextPart(l.count, l.split);
    Quotient(0, 0, 0, l.split);
    var file := Turned(l, d).file;
    assert file == l.file || Earlier(l.file, file);
    if file != l.file {
      assert had[file] == 0;
    }
  }

  lemma {:induction false} QuotaKept(l: Logger, day: Date, had: multiset<FileName>, days: seq<Date>)
    requires WithinQuota(l, day, had) && ClockForward(day, days)
    ensures forall f :: (had + multiset(Files(l, days)))[f] <= l.split
    decreases |days|
  {
    if days == [] {
      assert had + multiset(Files(l, days)) == had;
    } else {
      TurnKeepsQuota(l, day, had, days[0]);
      var t := Turned(l, days[0]);
      QuotaKept(t, days[0], had + multiset{t.file}, days[1..]);
      var rest := multiset(Files(t, days[1..]));
      assert had + multiset(Files(l, days)) == had + multiset{t.file} + rest;
    }
  }

  /** While the clock does not go back, no file gets more than m_split_lines lines. */
  lemma NoFileOverfull(day: Date, split: int, days: seq<Date>)
    requires split > 0 && ClockForward(day, days)
    ensures forall f :: multiset(Files(Opened(day, split), days))[f] <= split
  {
    var l := Opened(day, split);
    Quotient(0, 0, 0, split);
    QuotaKept(l, day, multiset{}, days);
    assert multiset{} + multiset(Files(l, days)) == multiset(Files(l, days));
  }
}
