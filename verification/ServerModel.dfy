/** The event loop of the web server, as far as connections and their timers go. */
module ServerModel {
  import opened TimerSequence
  import opened TimerList

  const MAX_FD: nat := 65536
  const TIMESLOT: int := 5
  const IDLE_LIMIT: int := 3 * TIMESLOT

  /** `table[fd]` is users_timer[fd].timer; `socks` are the descriptors that the connections
      have in m_sockfd, which a timer's callback leaves as it is. */
  datatype Sys = Sys(timers: seq<Entry<UtilTimer>>, table: map<int, UtilTimer>, open: set<int>, socks: set<int>,
                     userCount: int)

  /** What the event loop handles; `now` is what time() returns then.  WorkerClose is
      close_conn called by a worker thread when process_write has no answer; that may be
      after the loop has closed the connection, since it only looks at m_sockfd. */
  datatype Event =
    | Accept(timer: UtilTimer, now: int)
    | Activity(fd: int, now: int)
    | Hangup(fd: int)
    | Tick(now: int)
    | WorkerClose(fd: int)

  const START: Sys := Sys([], map[], {}, {}, 0)

  ghost predicate Listed(s: seq<Entry<UtilTimer>>, t: UtilTimer) {
    exists k :: 0 <= k < |s| && s[k].node == t
  }

  /** Position of the timer `t`, or |s|. */
  function Find(s: seq<Entry<UtilTimer>>, t: UtilTimer): (k: nat)
    ensures k <= |s| && (k < |s| ==> s[k].node == t)
    ensures k < |s| <==> Listed(s, t)
    ensures forall i :: 0 <= i < k ==> s[i].node != t
  {
    if s == [] then 0
    else if s[0].node == t then assert s[0].node == t; 0
    else
      var i := Find(s[1..], t);
      assert Listed(s, t) ==> Listed(s[1..], t) by {
        if Listed(s, t) {
          var k :| 0 <= k < |s| && s[k].node == t;
          assert s[1..][k - 1].node == t;
        }
      }
      assert i < |s[1..]| ==> s[1..][i] == s[i + 1];
      i + 1
  }

  /** What the system around the loop guarantees: accept returns a free descriptor and
      `new` a new timer, and epoll reports only open descriptors. */
  ghost predicate Enabled(s: Sys, e: Event) {
    match e
    case Accept(t, _) => 0 <= t.sockfd < MAX_FD && t.sockfd !in s.open && !Listed(s.timers, t)
    case Activity(fd, _) => fd in s.open && fd in s.table
    case Hangup(fd) => fd in s.open && fd in s.table
    case Tick(_) => true
    case WorkerClose(fd) => fd in s.socks
  }

  function SetExpire(s: seq<Entry<UtilTimer>>, k: nat, expire: int): seq<Entry<UtilTimer>>
    requires k < |s|
  {
    s[k := s[k].(expire := expire)]
  }

  function Fds(s: seq<Entry<UtilTimer>>): set<int> {
    set i | 0 <= i < |s| :: s[i].node.sockfd
  }

  function Step(s: Sys, e: Event): Sys {
    match e
    case Accept(t, now) =>
      if s.userCount >= MAX_FD then s
      else Sys(Added(s.timers, Entry(t, now + IDLE_LIMIT)), s.table[t.sockfd := t],
               s.open + {t.sockfd}, s.socks + {t.sockfd}, s.userCount + 1)
    case Activity(fd, now) =>
      if fd !in s.table then s else
        var k := Find(s.timers, s.table[fd]);
        if k == |s.timers| then s
        else s.(timers := Adjusted(SetExpire(s.timers, k, now + IDLE_LIMIT), k))
    case Hangup(fd) =>
      if fd !in s.table then s else
        var k := Find(s.timers, s.table[fd]);
        s.(timers := if k == |s.timers| then s.timers else RemoveAt(s.timers, k),
           open := s.open - {fd}, userCount := s.userCount - 1)
    case Tick(now) =>
      var n := Due(s.timers, now);
      s.(timers := s.timers[n..], open := s.open - Fds(s.timers[..n]), userCount := s.userCount - n)
    case WorkerClose(fd) =>
      s.(open := s.open - {fd}, socks := s.socks - {fd}, userCount := s.userCount - 1)
  }

  ghost predicate Run(s: Sys, es: seq<Event>)
    decreases |es|
  {
    es != [] ==> Enabled(s, es[0]) && Run(Step(s, es[0]), es[1..])
  }

  function Reached(s: Sys, es: seq<Event>): Sys
    decreases |es|
  {
    if es == [] then s else Reached(Step(s, es[0]), es[1..])
  }

  lemma {:induction false} RunOneMore(s: Sys, es: seq<Event>, e: Event)
    requires Run(s, es) && Enabled(Reached(s, es), e)
    ensures Run(s, es + [e]) && Reached(s, es + [e]) == Step(Reached(s, es), e)
    decreases |es|
  {
    if es == [] {
      assert [e][1..] == [];
    } else {
      assert (es + [e])[1..] == es[1..] + [e];
      RunOneMore(Step(s, es[0]), es[1..], e);
    }
  }

  function WorkerCloses(es: seq<Event>): nat {
    if es == [] then 0 else (if es[0].WorkerClose? then 1 else 0) + WorkerCloses(es[1..])
  }

  // --- what every run keeps ----------------------------------------------------------

  ghost predicate DistinctNodes(s: seq<Entry<UtilTimer>>) {
    forall i, j :: 0 <= i < j < |s| ==> s[i].node != s[j].node
  }

  /** Every open descriptor has a listed timer of its own in the table. */
  ghost predicate Sound(s: Sys) {
    && DistinctNodes(s.timers)
    && forall fd :: fd in s.open ==>
         0 <= fd < MAX_FD && fd in s.table && s.table[fd].sockfd == fd && Listed(s.timers, s.table[fd])
  }

  /** ... and every listed timer belongs to an open descriptor: one to one. */
  ghost predicate Matched(s: Sys) {
    && Sound(s)
    && forall k :: 0 <= k < |s.timers| ==>
         var fd := s.timers[k].node.sockfd;
         fd in s.open && s.table[fd] == s.timers[k].node
  }

  lemma InsertListed(s: seq<Entry<UtilTimer>>, j: nat, e: Entry<UtilTimer>)
    requires j <= |s|
    ensures forall t :: Listed(InsertAt(s, j, e), t) <==> Listed(s, t) || t == e.node
    ensures DistinctNodes(s) && !Listed(s, e.node) ==> DistinctNodes(InsertAt(s, j, e))
  {
    var r := InsertAt(s, j, e);
    forall t | Listed(s, t)
      ensures Listed(r, t)
    {
      var k :| 0 <= k < |s| && s[k].node == t;
      assert r[if k < j then k else k + 1].node == t;
    }
    assert r[j] == e;
    forall k | 0 <= k < |r| && k != j
      ensures Listed(s, r[k].node)
    {
      assert s[if k < j then k else k - 1].node == r[k].node;
    }
  }

  lemma RemoveListed(s: seq<Entry<UtilTimer>>, k: nat)
    requires DistinctNodes(s) && k < |s|
    ensures forall t :: Listed(RemoveAt(s, k), t) <==> Listed(s, t) && t != s[k].node
    ensures DistinctNodes(RemoveAt(s, k))
  {
    var r := RemoveAt(s, k);
    forall t | Listed(s, t) && t != s[k].node
      ensures Listed(r, t)
    {
      var i :| 0 <= i < |s| && s[i].node == t;
      assert r[if i < k then i else i - 1].node == t;
    }
    forall i | 0 <= i < |r|
      ensures Listed(s, r[i].node) && r[i].node != s[k].node
    {
      assert s[if i < k then i else i + 1].node == r[i].node;
    }
  }

  lemma MoveListed(s: seq<Entry<UtilTimer>>, k: nat, expire: int)
    requires DistinctNodes(s) && k < |s|
    ensures var r := Adjusted(SetExpire(s, k, expire), k);
            && |r| == |s| && DistinctNodes(r) && (forall t :: Listed(r, t) <==> Listed(s, t))
  {
    var m := SetExpire(s, k, expire);
    assert forall i :: 0 <= i < |s| ==> m[i].node == s[i].node;
    assert forall t :: Listed(m, t) <==> Listed(s, t) by {
      forall t | Listed(s, t) ensures Listed(m, t) {
        var i :| 0 <= i < |s| && s[i].node == t;
        assert m[i].node == t;
      }
    }
    RemoveListed(m, k);
    hide Listed, DistinctNodes;
    var q := RemoveAt(m, k);
    InsertListed(q, LaterFrom(q, expire, k), m[k]);
    if k + 1 < |s| {
      InsertListed(q, LaterFrom(q, expire, k + 1), m[k]);
    }
  }

  lemma FdOfPrefix(s: seq<Entry<UtilTimer>>, n: nat, k: nat)
    requires k < n <= |s|
    ensures s[k].node.sockfd in Fds(s[..n])
  {
    assert s[..n][k] == s[k];
  }

  lemma DropListed(s: seq<Entry<UtilTimer>>, n: nat)
    requires DistinctNodes(s) && n <= |s|
    ensures DistinctNodes(s[n..])
    ensures forall t :: Listed(s, t) && t.sockfd !in Fds(s[..n]) ==> Listed(s[n..], t)
  {
    forall t | Listed(s, t) && t.sockfd !in Fds(s[..n])
      ensures Listed(s[n..], t)
    {
      var k :| 0 <= k < |s| && s[k].node == t;
      if k < n {
        FdOfPrefix(s, n, k);
      } else {
        assert s[n..][k - n] == s[k];
      }
    }
  }

  /** One event: soundness stays, and the count moves with the list except that a
      worker's close takes one off the count alone. */
  lemma StepKeepsSound(s: Sys, e: Event)
    requires Sound(s) && Enabled(s, e)
    ensures Sound(Step(s, e))
    ensures var p := Step(s, e);
            p.userCount - |p.timers| == s.userCount - |s.timers| - if e.WorkerClose? then 1 else 0
  {
    hide Listed, DistinctNodes, LaterFrom, Adjusted, Find, Added, RemoveAt, Due;
    match e {
      case Accept(t, now) =>
        var r := Entry(t, now + IDLE_LIMIT);
        AddedAt(s.timers, r);
        InsertListed(s.timers, LaterFrom(s.timers, r.expire, 0), r);
      case Activity(fd, now) =>
        MoveListed(s.timers, Find(s.timers, s.table[fd]), now + IDLE_LIMIT);
      case Hangup(fd) =>
        RemoveListed(s.timers, Find(s.timers, s.table[fd]));
      case Tick(now) =>
        DropListed(s.timers, Due(s.timers, now));
      case WorkerClose(_) =>
    }
  }

  /** Over every run, m_user_count is the length of the timer list less the number of
      worker closes: the two agree iff no worker has closed a connection itself. */
  lemma {:induction false} CountIsListLessWorkerCloses(s: Sys, es: seq<Event>)
    requires Sound(s) && Run(s, es)
    ensures Sound(Reached(s, es))
    ensures Reached(s, es).userCount - |Reached(s, es).timers| == s.userCount - |s.timers| - WorkerCloses(es)
    decreases |es|
  {
    if es != [] {
      StepKeepsSound(s, es[0]);
      CountIsListLessWorkerCloses(Step(s, es[0]), es[1..]);
    }
  }

  lemma CountMatchesListExactly(es: seq<Event>)
    requires Run(START, es)
    ensures Reached(START, es).userCount == |Reached(START, es).timers| <==> WorkerCloses(es) == 0
  {
    CountIsListLessWorkerCloses(START, es);
  }

  /** With a worker's close the count goes wrong for good: one connection, closed by its
      worker, whose timer then expires, leaves the count at -1. */
  lemma WorkerCloseThenExpiry(t: UtilTimer, now: int)
    requires 0 <= t.sockfd < MAX_FD
    ensures var es := [Accept(t, now), WorkerClose(t.sockfd), Tick(now + IDLE_LIMIT)];
            && Run(START, es) && WorkerCloses(es) == 1
            && Reached(START, es).timers == [] && Reached(START, es).userCount == -1
  {
    hide Run, Reached, WorkerCloses;
    var a, w, k := Accept(t, now), WorkerClose(t.sockfd), Tick(now + IDLE_LIMIT);
    var s1 := Step(START, a);
    assert s1 == Sys([Entry(t, now + IDLE_LIMIT)], map[t.sockfd := t], {t.sockfd}, {t.sockfd}, 1);
    var s2 := Step(s1, w);
    assert s2 == s1.(open := {}, socks := {}, userCount := 0);
    var s3 := Step(s2, k);
    assert s3.timers == [] && s3.userCount == -1;
    NoEvents(s3);
    FirstEvent(s2, k, []);
    FirstEvent(s1, w, [k] + []);
    FirstEvent(START, a, [w] + ([k] + []));
    assert [a] + ([w] + ([k] + [])) == [a, w, k];
  }

  /** The same when the timer expires first: its callback leaves m_sockfd, so that the worker
      closes the connection once more. */
  lemma ExpiryThenWorkerClose(t: UtilTimer, now: int)
    requires 0 <= t.sockfd < MAX_FD
    ensures var es := [Accept(t, now), Tick(now + IDLE_LIMIT), WorkerClose(t.sockfd)];
            && Run(START, es) && WorkerCloses(es) == 1
            && Reached(START, es).timers == [] && Reached(START, es).userCount == -1
  {
    hide Run, Reached, WorkerCloses;
    var a, k, w := Accept(t, now), Tick(now + IDLE_LIMIT), WorkerClose(t.sockfd);
    var s1 := Step(START, a);
    assert s1 == Sys([Entry(t, now + IDLE_LIMIT)], map[t.sockfd := t], {t.sockfd}, {t.sockfd}, 1);
    var s2 := Step(s1, k);
    assert s2.timers == [] && s2.userCount == 0 && s2.socks == {t.sockfd};
    var s3 := Step(s2, w);
    NoEvents(s3);
    FirstEvent(s2, w, []);
    FirstEvent(s1, k, [w] + []);
    FirstEvent(START, a, [k] + ([w] + []));
    assert [a] + ([k] + ([w] + [])) == [a, k, w];
  }

  lemma NoEvents(s: Sys)
    ensures Run(s, []) && Reached(s, []) == s && WorkerCloses([]) == 0
  {
  }

  lemma FirstEvent(s: Sys, e: Event, es: seq<Event>)
    ensures Run(s, [e] + es) <==> Enabled(s, e) && Run(Step(s, e), es)
    ensures Reached(s, [e] + es) == Reached(Step(s, e), es)
    ensures WorkerCloses([e] + es) == (if e.WorkerClose? then 1 else 0) + WorkerCloses(es)
  {
    var all := [e] + es;
    assert all[0] == e && all[1..] == es;
    hide Enabled, Step;
  }

  // --- runs without worker closes -----------------------------------------------------

  lemma StepKeepsMatched(s: Sys, e: Event)
    requires Matched(s) && Enabled(s, e) && !e.WorkerClose?
    ensures Matched(Step(s, e))
  {
    StepKeepsSound(s, e);
    var p := Step(s, e);
    forall k | 0 <= k < |p.timers|
      ensures var fd := p.timers[k].node.sockfd; fd in p.open && p.table[fd] == p.timers[k].node
    {
      TimerStays(s, e, p.timers[k].node);
    }
  }

  /** A timer still listed after an event belongs to an open descriptor's table entry. */
  lemma TimerStays(s: Sys, e: Event, t: UtilTimer)
    requires Matched(s) && Enabled(s, e) && !e.WorkerClose? && Listed(Step(s, e).timers, t)
    ensures var p := Step(s, e); t.sockfd in p.open && t.sockfd in p.table && p.table[t.sockfd] == t
  {
    hide DistinctNodes, LaterFrom, Adjusted, Find, Listed;
    match e {
      case Accept(u, now) =>
        var r := Entry(u, now + IDLE_LIMIT);
        AddedAt(s.timers, r);
        InsertListed(s.timers, LaterFrom(s.timers, r.expire, 0), r);
        ListedIsMatched(s, t);
      case Activity(fd, now) =>
        MoveListed(s.timers, Find(s.timers, s.table[fd]), now + IDLE_LIMIT);
        ListedIsMatched(s, t);
      case Hangup(fd) =>
        RemoveListed(s.timers, Find(s.timers, s.table[fd]));
        ListedIsMatched(s, t);
      case Tick(now) =>
        KeptIsNotFired(s, Due(s.timers, now), t);
    }
  }

  lemma ListedIsMatched(s: Sys, t: UtilTimer)
    requires Matched(s)
    ensures Listed(s.timers, t) ==> t.sockfd in s.open && s.table[t.sockfd] == t
  {
  }

  lemma KeptIsNotFired(s: Sys, n: nat, t: UtilTimer)
    requires Matched(s) && n <= |s.timers| && Listed(s.timers[n..], t)
    ensures t.sockfd in s.open && s.table[t.sockfd] == t && t.sockfd !in Fds(s.timers[..n])
  {
    var k :| 0 <= k < |s.timers[n..]| && s.timers[n..][k].node == t;
    assert s.timers[n + k].node == t;
    forall i | 0 <= i < n
      ensures s.timers[..n][i].node.sockfd != t.sockfd
    {
      assert s.timers[..n][i] == s.timers[i] && s.timers[i].node != t;
    }
  }

  lemma {:induction false} DistinctFdsCount(s: seq<Entry<UtilTimer>>)
    requires forall i, j :: 0 <= i < j < |s| ==> s[i].node.sockfd != s[j].node.sockfd
    ensures |Fds(s)| == |s|
  {
    if s != [] {
      var r := s[..|s| - 1];
      assert forall i :: 0 <= i < |r| ==> r[i] == s[i];
      DistinctFdsCount(r);
      FdsOfLast(s);
      assert s[|s| - 1].node.sockfd !in Fds(r);
    }
  }

  lemma FdsOfLast(s: seq<Entry<UtilTimer>>)
    requires s != []
    ensures Fds(s) == Fds(s[..|s| - 1]) + {s[|s| - 1].node.sockfd}
  {
    var r := s[..|s| - 1];
    assert forall i :: 0 <= i < |r| ==> r[i] == s[i];
  }

  /** Over every run without worker closes: m_user_count, the length of the list and the
      number of open connections agree; the open descriptors are those of the listed
      timers, one each; and the count stays within 0..MAX_FD. */
  lemma {:induction false} ConnectionsMatchTimers(s: Sys, es: seq<Event>)
    requires Matched(s) && s.userCount == |s.timers| <= MAX_FD && Run(s, es) && WorkerCloses(es) == 0
    ensures var p := Reached(s, es);
            && Matched(p) && p.userCount == |p.timers| == |p.open| <= MAX_FD
            && p.open == Fds(p.timers)
    decreases |es|
  {
    if es == [] {
      forall i, j | 0 <= i < j < |s.timers|
        ensures s.timers[i].node.sockfd != s.timers[j].node.sockfd
      {
        assert s.timers[i].node != s.timers[j].node;
      }
      DistinctFdsCount(s.timers);
      forall fd | fd in s.open
        ensures fd in Fds(s.timers)
      {
        var k :| 0 <= k < |s.timers| && s.timers[k].node == s.table[fd];
      }
      assert s.open == Fds(s.timers);
    } else {
      StepKeepsMatched(s, es[0]);
      StepKeepsSound(s, es[0]);
      ConnectionsMatchTimers(Step(s, es[0]), es[1..]);
    }
  }

  // --- with a clock that does not go back -------------------------------------------

  /** The clock after an event, if it reads one. */
  function Clock(clock: int, e: Event): int {
    match e
    case Accept(_, now) => now
    case Activity(_, now) => now
    case Tick(now) => now
    case _ => clock
  }

  /** The queue of timers by last activity, least recent first: accept and activity put
      a timer last, hanging up takes one out, a tick keeps those it does not find idle
      for IDLE_LIMIT. */
  function ByLastActivity(s: Sys, e: Event): seq<Entry<UtilTimer>> {
    match e
    case Accept(t, now) =>
      if s.userCount >= MAX_FD then s.timers else s.timers + [Entry(t, now + IDLE_LIMIT)]
    case Activity(fd, now) =>
      if fd !in s.table || Find(s.timers, s.table[fd]) == |s.timers| then s.timers
      else RemoveAt(s.timers, Find(s.timers, s.table[fd])) + [Entry(s.table[fd], now + IDLE_LIMIT)]
    case Hangup(fd) =>
      if fd !in s.table || Find(s.timers, s.table[fd]) == |s.timers| then s.timers
      else RemoveAt(s.timers, Find(s.timers, s.table[fd]))
    case Tick(now) => ActiveSince(s.timers, now - IDLE_LIMIT)
    case WorkerClose(_) => s.timers
  }

  /** The entries whose last activity is after `time`. */
  function ActiveSince(s: seq<Entry<UtilTimer>>, time: int): seq<Entry<UtilTimer>> {
    if s == [] then []
    else if s[0].expire - IDLE_LIMIT > time then [s[0]] + ActiveSince(s[1..], time)
    else ActiveSince(s[1..], time)
  }

  /** The entries whose last activity is at or before `time`. */
  function IdleSince(s: seq<Entry<UtilTimer>>, time: int): seq<Entry<UtilTimer>> {
    if s == [] then []
    else if s[0].expire - IDLE_LIMIT <= time then [s[0]] + IdleSince(s[1..], time)
    else IdleSince(s[1..], time)
  }

  /** In order of expiry, none expiring later than a timer refreshed now would. */
  ghost predicate Ordered(s: Sys, clock: int) {
    Sorted(s.timers) && forall k :: 0 <= k < |s.timers| ==> s.timers[k].expire <= clock + IDLE_LIMIT
  }

  lemma {:induction false} NoneIdle(s: seq<Entry<UtilTimer>>, time: int)
    requires forall k :: 0 <= k < |s| ==> s[k].expire - IDLE_LIMIT > time
    ensures ActiveSince(s, time) == s && IdleSince(s, time) == []
  {
    if s != [] {
      NoneIdle(s[1..], time);
    }
  }

  /** A tick at `now` fires exactly the connections idle for IDLE_LIMIT, in the order of
      their last activity, and keeps exactly the others. */
  lemma {:induction false} TickFiresIdle(s: seq<Entry<UtilTimer>>, now: int)
    requires Sorted(s)
    ensures s[..Due(s, now)] == IdleSince(s, now - IDLE_LIMIT)
    ensures s[Due(s, now)..] == ActiveSince(s, now - IDLE_LIMIT)
  {
    TickSplits(s, now);
    if s != [] {
      if s[0].expire <= now {
        var r := s[1..];
        TickFiresIdle(r, now);
        LaterFromIs(s, now, 0, Due(r, now) + 1);
        assert s[..Due(r, now) + 1] == [s[0]] + r[..Due(r, now)];
      } else {
        NoneIdle(s, now - IDLE_LIMIT);
      }
    }
  }

  lemma AppendIsAdd(s: seq<Entry<UtilTimer>>, e: Entry<UtilTimer>)
    requires Sorted(s) && forall k :: 0 <= k < |s| ==> s[k].expire <= e.expire
    ensures Added(s, e) == s + [e] && Sorted(s + [e])
  {
    AddKeepsOrder(s, e);
    LaterFromIs(s, e.expire, 0, |s|);
    assert InsertAt(s, |s|, e) == s + [e];
  }

  /** The timer of a connection that has just been active goes to the tail. */
  lemma RefreshMovesLast(s: seq<Entry<UtilTimer>>, k: nat, expire: int)
    requires Sorted(s) && k < |s| && forall i :: 0 <= i < |s| ==> s[i].expire <= expire
    ensures var r := RemoveAt(s, k) + [Entry(s[k].node, expire)];
            Adjusted(SetExpire(s, k, expire), k) == r && Sorted(r)
  {
    var m, e := SetExpire(s, k, expire), Entry(s[k].node, expire);
    RemoveKeepsOrder(s, k);
    AppendIsAdd(RemoveAt(s, k), e);
    assert RemoveAt(m, k) == RemoveAt(s, k);
    if k + 1 == |s| {
      assert m == RemoveAt(s, k) + [e];
    } else {
      assert m[k + 1] == s[k + 1];
      LaterFromIs(RemoveAt(s, k), expire, k + 1, |s| - 1);
      assert InsertAt(RemoveAt(s, k), |s| - 1, e) == RemoveAt(s, k) + [e];
    }
  }

  lemma ActivityIsByLastActivity(s: Sys, fd: int, now: int, clock: int)
    requires Sound(s) && Ordered(s, clock) && clock <= now && Enabled(s, Activity(fd, now))
    ensures Step(s, Activity(fd, now)).timers == ByLastActivity(s, Activity(fd, now))
    ensures Ordered(Step(s, Activity(fd, now)), now)
  {
    hide Listed, DistinctNodes, LaterFrom, Adjusted, Find;
    if fd in s.table && Find(s.timers, s.table[fd]) < |s.timers| {
      RefreshMovesLast(s.timers, Find(s.timers, s.table[fd]), now + IDLE_LIMIT);
    }
  }

  lemma HangupIsByLastActivity(s: Sys, fd: int, clock: int)
    requires Sound(s) && Ordered(s, clock) && Enabled(s, Hangup(fd))
    ensures Step(s, Hangup(fd)).timers == ByLastActivity(s, Hangup(fd))
    ensures Ordered(Step(s, Hangup(fd)), clock)
  {
    hide Listed, DistinctNodes, LaterFrom, Find;
    if fd in s.table && Find(s.timers, s.table[fd]) < |s.timers| {
      RemoveKeepsOrder(s.timers, Find(s.timers, s.table[fd]));
    }
  }

  lemma StepIsByLastActivity(s: Sys, e: Event, clock: int)
    requires Sound(s) && Enabled(s, e) && Ordered(s, clock) && clock <= Clock(clock, e)
    ensures Step(s, e).timers == ByLastActivity(s, e)
    ensures Ordered(Step(s, e), Clock(clock, e))
  {
    hide Listed, DistinctNodes, LaterFrom, Adjusted, Added, Find, RemoveAt, Due, ActiveSince, Fds;
    match e {
      case Accept(t, now) =>
        AppendIsAdd(s.timers, Entry(t, now + IDLE_LIMIT));
      case Activity(fd, now) =>
        ActivityIsByLastActivity(s, fd, now, clock);
      case Hangup(fd) =>
        HangupIsByLastActivity(s, fd, clock);
      case Tick(now) =>
        TickFiresIdle(s.timers, now);
      case WorkerClose(_) =>
    }
  }

  ghost predicate Clocked(clock: int, es: seq<Event>)
    decreases |es|
  {
    es != [] ==> clock <= Clock(clock, es[0]) && Clocked(Clock(clock, es[0]), es[1..])
  }

  function ReachedByLastActivity(s: Sys, es: seq<Event>): Sys
    decreases |es|
  {
    if es == [] then s
    else ReachedByLastActivity(Step(s, es[0]).(timers := ByLastActivity(s, es[0])), es[1..])
  }

  /** Over every run with a nondecreasing clock the timer list is the queue of
      connections by last activity. */
  lemma {:induction false} ListIsByLastActivity(s: Sys, es: seq<Event>, clock: int)
    requires Sound(s) && Ordered(s, clock) && Run(s, es) && Clocked(clock, es)
    ensures Reached(s, es) == ReachedByLastActivity(s, es) && Sorted(Reached(s, es).timers)
    decreases |es|
  {
    if es != [] {
      StepKeepsSound(s, es[0]);
      StepIsByLastActivity(s, es[0], clock);
      ListIsByLastActivity(Step(s, es[0]), es[1..], Clock(clock, es[0]));
    }
  }

  // --- last activity, read off the events ---------------------------------------------

  /** For each timer, what time() returned at its last Accept or Activity event. */
  function SeenAfter(s: Sys, seen: map<UtilTimer, int>, e: Event): map<UtilTimer, int> {
    match e
    case Accept(t, now) => if s.userCount >= MAX_FD then seen else seen[t := now]
    case Activity(fd, now) => if fd in s.table then seen[s.table[fd] := now] else seen
    case _ => seen
  }

  function Seen(s: Sys, seen: map<UtilTimer, int>, es: seq<Event>): map<UtilTimer, int>
    decreases |es|
  {
    if es == [] then seen else Seen(Step(s, es[0]), SeenAfter(s, seen, es[0]), es[1..])
  }

  /** Each listed timer expires IDLE_LIMIT after its last activity. */
  ghost predicate Stamped(s: seq<Entry<UtilTimer>>, seen: map<UtilTimer, int>) {
    forall r <- s :: r.node in seen && r.expire == seen[r.node] + IDLE_LIMIT
  }

  lemma AdjustedMembers(s: seq<Entry<UtilTimer>>, k: nat)
    requires k < |s|
    ensures forall r :: r in Adjusted(s, k) ==> r in s
  {
    hide LaterFrom;
  }

  lemma ActivityStamps(s: seq<Entry<UtilTimer>>, k: nat, seen: map<UtilTimer, int>, now: int)
    requires DistinctNodes(s) && Stamped(s, seen) && k < |s|
    ensures Stamped(Adjusted(SetExpire(s, k, now + IDLE_LIMIT), k), seen[s[k].node := now])
  {
    AdjustedMembers(SetExpire(s, k, now + IDLE_LIMIT), k);
    hide Adjusted;
  }

  lemma AcceptStamps(s: seq<Entry<UtilTimer>>, t: UtilTimer, seen: map<UtilTimer, int>, now: int)
    requires !Listed(s, t) && Stamped(s, seen)
    ensures Stamped(Added(s, Entry(t, now + IDLE_LIMIT)), seen[t := now])
  {
    var e := Entry(t, now + IDLE_LIMIT);
    AddedAt(s, e);
    assert forall r :: r in Added(s, e) ==> r in s || r == e;
    assert forall r :: r in s ==> r.node != t;
    hide Added;
  }

  lemma StepStamps(s: Sys, e: Event, seen: map<UtilTimer, int>)
    requires Sound(s) && Enabled(s, e) && Stamped(s.timers, seen)
    ensures Stamped(Step(s, e).timers, SeenAfter(s, seen, e))
  {
    hide Added, Adjusted, Find, Due, Fds, Listed, DistinctNodes;
    match e {
      case Accept(t, now) => AcceptStamps(s.timers, t, seen, now);
      case Activity(fd, now) =>
        if Find(s.timers, s.table[fd]) < |s.timers| {
          ActivityStamps(s.timers, Find(s.timers, s.table[fd]), seen, now);
        }
      case Hangup(_) =>
      case Tick(_) =>
      case WorkerClose(_) =>
    }
  }

  lemma {:induction false} RunStamps(s: Sys, es: seq<Event>, seen: map<UtilTimer, int>)
    requires Sound(s) && Run(s, es) && Stamped(s.timers, seen)
    ensures Stamped(Reached(s, es).timers, Seen(s, seen, es))
    decreases |es|
  {
    if es != [] {
      StepStamps(s, es[0], seen);
      StepKeepsSound(s, es[0]);
      hide Stamped, Sound;
      RunStamps(Step(s, es[0]), es[1..], SeenAfter(s, seen, es[0]));
    }
  }

  /** After any run with a nondecreasing clock, a tick at `now` fires exactly the listed
      timers whose last Accept or Activity event was at or before now - IDLE_LIMIT, each
      once and in order of expiry, and leaves the others. */
  lemma TickFiresIdleOfRun(es: seq<Event>, clock: int, now: int)
    requires Run(START, es) && Clocked(clock, es)
    ensures var s, seen := Reached(START, es), Seen(START, map[], es);
            var n := Due(s.timers, now);
            && DistinctNodes(s.timers) && Sorted(s.timers) && Step(s, Tick(now)).timers == s.timers[n..]
            && forall k :: 0 <= k < |s.timers| ==>
                 s.timers[k].node in seen && (k < n <==> seen[s.timers[k].node] <= now - IDLE_LIMIT)
  {
    var s, seen := Reached(START, es), Seen(START, map[], es);
    ListIsByLastActivity(START, es, clock);
    CountIsListLessWorkerCloses(START, es);
    RunStamps(START, es, map[]);
    TickSplits(s.timers, now);
    hide Seen, Reached, Due, Run;
    assert forall k :: 0 <= k < |s.timers| ==> s.timers[k] in s.timers;
  }

  /** The events' clock does not go back. */
  ghost predicate Timely(es: seq<Event>) {
    exists clock :: Clocked(clock, es)
  }

  /** Every open descriptor's timer was last active after `time`. */
  ghost predicate ActiveAfter(s: Sys, seen: map<UtilTimer, int>, time: int) {
    forall fd :: fd in s.open ==> fd in s.table && s.table[fd] in seen && seen[s.table[fd]] > time
  }

  /** When no timer is due at the head, no open connection has been idle for IDLE_LIMIT. */
  lemma NothingDueNothingIdle(es: seq<Event>, now: int)
    requires Run(START, es) && Timely(es)
    requires var s := Reached(START, es); s.timers != [] ==> s.timers[0].expire > now
    ensures ActiveAfter(Reached(START, es), Seen(START, map[], es), now - IDLE_LIMIT)
  {
    var clock :| Clocked(clock, es);
    var s, seen := Reached(START, es), Seen(START, map[], es);
    ListIsByLastActivity(START, es, clock);
    CountIsListLessWorkerCloses(START, es);
    RunStamps(START, es, map[]);
    hide Seen, Reached, Run;
    forall fd | fd in s.open
      ensures fd in s.table && s.table[fd] in seen && seen[s.table[fd]] > now - IDLE_LIMIT
    {
      var k :| 0 <= k < |s.timers| && s.timers[k].node == s.table[fd];
      assert s.timers[k] in s.timers && s.timers[0].expire <= s.timers[k].expire;
    }
  }
}
