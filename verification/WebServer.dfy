/** WebServer: the users_timer table and the timer list, updated by the event loop. */
module WebServer {
  import opened TimerSequence
  import opened TimerList
  import opened ServerModel

  class Server {
    const m_timer_lst: SortTimerLst
    const conns: Connections
    /** users_timer[fd].timer */
    const users_timer: array<UtilTimer?>

    ghost predicate Valid()
      reads this, m_timer_lst, m_timer_lst.nodes, conns, users_timer
    {
      && users_timer.Length == MAX_FD
      && m_timer_lst.Valid()
      && Sound(State())
    }

    ghost function Table(): map<int, UtilTimer>
      reads users_timer
    {
      map fd | 0 <= fd < users_timer.Length && users_timer[fd] != null :: users_timer[fd]
    }

    ghost function State(): Sys
      reads this, m_timer_lst, m_timer_lst.nodes, conns, users_timer
    {
      Sys(m_timer_lst.Entries(), Table(), conns.open, conns.m_sockfds, conns.m_user_count)
    }

    constructor ()
      ensures Valid() && State() == START
      ensures fresh(m_timer_lst) && fresh(conns) && fresh(users_timer)
    {
      m_timer_lst := new SortTimerLst();
      conns := new Connections();
      users_timer := new UtilTimer?[MAX_FD](_ => null);
      new;
      assert Table() == map[];
    }

    /** http_conn::init and the entry of users_timer. */
    method open_connection(t: UtilTimer)
      requires m_timer_lst.Valid() && 0 <= t.sockfd < users_timer.Length
      modifies conns, users_timer
      ensures m_timer_lst.Valid()
      ensures var s := old(State());
              State() == s.(table := s.table[t.sockfd := t], open := s.open + {t.sockfd},
                            socks := s.socks + {t.sockfd}, userCount := s.userCount + 1)
      ensures users_timer[t.sockfd] == t
      ensures forall fd :: 0 <= fd < users_timer.Length && fd != t.sockfd ==> users_timer[fd] == old(users_timer[fd])
    {
      ghost var table := Table();
      conns.open := conns.open + {t.sockfd};
      conns.m_sockfds := conns.m_sockfds + {t.sockfd};
      conns.m_user_count := conns.m_user_count + 1;
      users_timer[t.sockfd] := t;
      assert Table() == table[t.sockfd := t];
    }

    /** The rest of timer(), once the timer is made. */
    method register(t: UtilTimer, now: int)
      requires Valid() && 0 <= t.sockfd < MAX_FD && t.sockfd !in conns.open && conns.m_user_count < MAX_FD
      requires t !in m_timer_lst.nodes && t.prev == null && t.next == null && t.expire == now + IDLE_LIMIT
      modifies m_timer_lst, m_timer_lst.nodes`prev, m_timer_lst.nodes`next, conns, users_timer, t`prev, t`next
      ensures Valid()
      ensures Enabled(old(State()), Accept(t, now)) && State() == Step(old(State()), Accept(t, now))
      ensures forall n :: n in m_timer_lst.nodes ==> n in old(m_timer_lst.nodes) || n == t
      ensures users_timer[t.sockfd] == t
      ensures forall fd :: 0 <= fd < MAX_FD && fd != t.sockfd ==> users_timer[fd] == old(users_timer[fd])
      ensures conns.open == old(conns.open) + {t.sockfd} && conns.m_user_count == old(conns.m_user_count) + 1
    {
      hide Chained, Sound, Added, EntriesOf, Listed;
      ghost var s := State();
      NodesListed(m_timer_lst.nodes);
      StepKeepsSound(s, Accept(t, now));
      open_connection(t);
      m_timer_lst.add_timer(t);
      assert m_timer_lst.Entries() == Added(s.timers, Entry(t, now + IDLE_LIMIT));
      assert State() == Step(s, Accept(t, now));
    }

    /** The timer of `fd` expires at `expire`. */
    ghost predicate Expires(fd: int, expire: int)
      reads this, users_timer, users_timer[..]
    {
      0 <= fd < users_timer.Length && users_timer[fd] != null && users_timer[fd].expire == expire
    }

    /** timer(): a new connection and its timer. */
    method timer(connfd: int, now: int) returns (t: UtilTimer)
      requires Valid() && 0 <= connfd < MAX_FD && connfd !in conns.open
      requires conns.m_user_count < MAX_FD
      modifies m_timer_lst, m_timer_lst.nodes`prev, m_timer_lst.nodes`next, conns, users_timer
      ensures Valid() && fresh(t) && t.sockfd == connfd
      ensures users_timer[connfd] == t && Expires(connfd, now + IDLE_LIMIT)
      ensures forall fd, expire :: fd != connfd && old(Expires(fd, expire)) ==> Expires(fd, expire)
      ensures conns.open == old(conns.open) + {connfd} && conns.m_user_count == old(conns.m_user_count) + 1
      ensures Enabled(old(State()), Accept(t, now)) && State() == Step(old(State()), Accept(t, now))
      ensures forall i :: 0 <= i < |m_timer_lst.nodes| ==>
                m_timer_lst.nodes[i] in old(m_timer_lst.nodes) || fresh(m_timer_lst.nodes[i])
    {
      hide Chained, Sound, EntriesOf, Step, Enabled;
      ghost var s := State();
      t := new UtilTimer(connfd, now + IDLE_LIMIT);
      assert State() == s;
      register(t, now);
    }

    /** Position in the list of the timer of an open connection. */
    ghost function Position(fd: int): (k: nat)
      reads this, m_timer_lst, m_timer_lst.nodes, conns, users_timer
      requires Valid() && fd in conns.open
      ensures 0 <= fd < MAX_FD && users_timer[fd] != null
      ensures k == Find(State().timers, State().table[fd])
      ensures k < |m_timer_lst.nodes| && m_timer_lst.nodes[k] == users_timer[fd]
    {
      var s := State();
      assert fd in s.table && Listed(s.timers, s.table[fd]);
      Find(s.timers, s.table[fd])
    }

    /** timer->expire = cur + 3 * TIMESLOT */
    method set_expire(timer: UtilTimer, ghost k: nat, expire: int)
      requires m_timer_lst.Valid() && k < |m_timer_lst.nodes| && m_timer_lst.nodes[k] == timer
      modifies timer`expire
      ensures m_timer_lst.Valid()
      ensures m_timer_lst.Entries() == SetExpire(old(m_timer_lst.Entries()), k, expire)
    {
      hide EntriesOf;
      timer.expire := expire;
    }

    /** adjust_timer on the timer of `sockfd`. */
    method adjust_timer(sockfd: int, now: int)
      requires Valid() && sockfd in conns.open
      modifies m_timer_lst, m_timer_lst.nodes
      ensures Valid()
      ensures Enabled(old(State()), Activity(sockfd, now))
      ensures State() == Step(old(State()), Activity(sockfd, now))
      ensures Expires(sockfd, now + IDLE_LIMIT)
      ensures forall i :: 0 <= i < |m_timer_lst.nodes| ==> m_timer_lst.nodes[i] in old(m_timer_lst.nodes)
    {
      hide Chained, Sound, EntriesOf, Step, Find, Listed, Adjusted, Enabled;
      ghost var s, k := State(), Position(sockfd);
      var timer := users_timer[sockfd];
      ActivityStep(s, sockfd, now);
      set_expire(timer, k, now + IDLE_LIMIT);
      m_timer_lst.adjust_timer(timer, k);
    }

    /** deal_timer on `sockfd`. */
    method deal_timer(sockfd: int)
      requires Valid() && sockfd in conns.open
      modifies m_timer_lst, m_timer_lst.nodes, conns
      ensures Valid()
      ensures Enabled(old(State()), Hangup(sockfd)) && State() == Step(old(State()), Hangup(sockfd))
      ensures conns.open == old(conns.open) - {sockfd} && conns.m_user_count == old(conns.m_user_count) - 1
      ensures users_timer[sockfd] != null && users_timer[sockfd] !in m_timer_lst.nodes
      ensures forall i :: 0 <= i < |m_timer_lst.nodes| ==> m_timer_lst.nodes[i] in old(m_timer_lst.nodes)
    {
      hide Chained, Sound, EntriesOf, Step, Find, Listed, Enabled, RemoveAt;
      ghost var s, k := State(), Position(sockfd);
      var timer := users_timer[sockfd];
      HangupStep(s, sockfd);
      RemoveEnds(m_timer_lst.nodes, k);
      conns.cb_func(sockfd);
      m_timer_lst.del_timer(timer, k);
    }

    /** No timer is due at the head of the list. */
    ghost predicate Quiet(now: int)
      reads this, m_timer_lst, m_timer_lst.nodes
    {
      m_timer_lst.nodes != [] ==> m_timer_lst.nodes[0].expire > now
    }

    /** timer_handler: one tick. */
    method timer_handler(now: int)
      requires Valid()
      modifies m_timer_lst, m_timer_lst.nodes, conns
      ensures Valid() && State() == Step(old(State()), Tick(now))
      ensures Quiet(now)
      ensures conns.open <= old(conns.open)
      ensures forall i :: 0 <= i < |m_timer_lst.nodes| ==> m_timer_lst.nodes[i] in old(m_timer_lst.nodes)
      ensures conns.closed == old(conns.closed) + NodeFds(old(State()).timers[..Due(old(State()).timers, now)])
    {
      hide Chained, Sound, EntriesOf, Step, Descriptors, DescriptorSet, Fds, NodeFds, Listed, Due;
      ghost var s := State();
      ghost var n := Due(s.timers, now);
      ghost var rest := m_timer_lst.nodes[n..];
      TickStep(s, now);
      SplitEntries(m_timer_lst.nodes, n);
      ghost var entries := EntriesOf(rest);
      m_timer_lst.tick(now, conns);
      assert EntriesOf(rest) == entries;
      assert State() == Step(s, Tick(now));
    }

    /** close_conn, called by a worker thread whose request has no answer, while m_sockfd is
        not -1. */
    method close_conn(sockfd: int)
      requires Valid() && sockfd in conns.m_sockfds
      modifies conns
      ensures Valid()
      ensures Enabled(old(State()), WorkerClose(sockfd)) && State() == Step(old(State()), WorkerClose(sockfd))
      ensures conns.open == old(conns.open) - {sockfd} && conns.m_sockfds == old(conns.m_sockfds) - {sockfd}
      ensures conns.m_user_count == old(conns.m_user_count) - 1
    {
      hide Sound, Chained, EntriesOf, Listed;
      ghost var s := State();
      StepKeepsSound(s, WorkerClose(sockfd));
      conns.open := conns.open - {sockfd};
      conns.m_sockfds := conns.m_sockfds - {sockfd};
      conns.m_user_count := conns.m_user_count - 1;
      assert State() == Step(s, WorkerClose(sockfd));
    }

    /** `es` is a run of the model from `start` to where the server now is. */
    ghost predicate Followed(start: Sys, es: seq<Event>)
      reads this, m_timer_lst, m_timer_lst.nodes, conns, users_timer
    {
      Valid() && Run(start, es) && Reached(start, es) == State()
    }

    /** One accept: refused when the server is full. */
    method accept_one(connfd: int, now: int, ghost start: Sys, ghost was: seq<Event>)
      returns (ok: bool, ghost es: seq<Event>)
      requires Followed(start, was) && 0 <= connfd < MAX_FD && connfd !in conns.open
      modifies m_timer_lst, m_timer_lst.nodes`prev, m_timer_lst.nodes`next, conns, users_timer
      ensures Followed(start, es) && was <= es && WorkerCloses(es) == WorkerCloses(was)
      ensures ok <==> old(conns.m_user_count) < MAX_FD
      ensures forall i :: 0 <= i < |m_timer_lst.nodes| ==>
                m_timer_lst.nodes[i] in old(m_timer_lst.nodes) || fresh(m_timer_lst.nodes[i])
      ensures ok ==> conns.open == old(conns.open) + {connfd} && conns.m_user_count == old(conns.m_user_count) + 1
      ensures ok ==> Expires(connfd, now + IDLE_LIMIT)
      ensures forall fd, expire :: fd != connfd && old(Expires(fd, expire)) ==> Expires(fd, expire)
      ensures !ok ==> es == was && conns.open == old(conns.open) && conns.m_user_count == old(conns.m_user_count)
      ensures ok ==> |es| == |was| + 1 && AcceptOf(es[|was|], connfd, now)
    {
      hide Sound, Enabled, Run, Reached, Expires;
      if conns.m_user_count >= MAX_FD {
        return false, was;
      }
      var t := timer(connfd, now);
      RunOneMore(start, was, Accept(t, now));
      es := was + [Accept(t, now)];
      NoWorkerClose(was, Accept(t, now));
      ok := true;
    }

    /** The ET loop of dealclientdata: as many accepts as succeed and are not refused. */
    method accept_all(accepts: seq<Accepting>, ghost start: Sys, ghost was: seq<Event>)
      returns (ghost es: seq<Event>)
      requires Followed(start, was) && CanAccept(conns.open, accepts)
      modifies m_timer_lst, m_timer_lst.nodes`prev, m_timer_lst.nodes`next, conns, users_timer
      ensures Followed(start, es) && was <= es && WorkerCloses(es) == WorkerCloses(was)
      ensures forall i :: 0 <= i < |m_timer_lst.nodes| ==>
                m_timer_lst.nodes[i] in old(m_timer_lst.nodes) || fresh(m_timer_lst.nodes[i])
      ensures var n := Accepted(true, |accepts|, old(conns.m_user_count));
              conns.open == old(conns.open) + FirstOf(accepts, n) && AcceptsOf(es[|was|..], accepts, n)
      ensures var n := conns.m_user_count - old(conns.m_user_count);
              && 0 <= n <= |accepts| && conns.open == old(conns.open) + FirstOf(accepts, n)
              && (n < |accepts| ==> conns.m_user_count >= MAX_FD)
              && forall i :: 0 <= i < n ==> Expires(accepts[i].fd, accepts[i].now + IDLE_LIMIT)
    {
      hide Followed, Expires;
      es := was;
      var i := 0;
      while i < |accepts|
        invariant 0 <= i <= |accepts| && i <= Accepted(true, |accepts|, old(conns.m_user_count))
        invariant Followed(start, es) && was <= es && WorkerCloses(es) == WorkerCloses(was)
        invariant conns.m_user_count == old(conns.m_user_count) + i
        invariant conns.open == old(conns.open) + FirstOf(accepts, i) && AcceptsOf(es[|was|..], accepts, i)
        invariant forall k :: 0 <= k < i ==> Expires(accepts[k].fd, accepts[k].now + IDLE_LIMIT)
        invariant forall k :: 0 <= k < |m_timer_lst.nodes| ==>
                    m_timer_lst.nodes[k] in old(m_timer_lst.nodes) || fresh(m_timer_lst.nodes[k])
      {
        ghost var sofar := es;
        var accepted;
        accepted, es := accept_one(accepts[i].fd, accepts[i].now, start, es);
        if !accepted {
          break;
        }
        assert es[|was|..] == sofar[|was|..] + [es[|sofar|]];
        i := i + 1;
      }
    }

    /** dealclientdata: one accept in LT mode, in ET mode as many as succeed.  `accepts`
        are the descriptors accept returns before it fails, each with the time then. */
    method dealclientdata(et: bool, accepts: seq<Accepting>, ghost start: Sys, ghost was: seq<Event>)
      returns (ok: bool, ghost es: seq<Event>)
      requires Followed(start, was) && CanAccept(conns.open, accepts)
      modifies m_timer_lst, m_timer_lst.nodes`prev, m_timer_lst.nodes`next, conns, users_timer
      ensures Followed(start, es) && was <= es && WorkerCloses(es) == WorkerCloses(was)
      ensures forall i :: 0 <= i < |m_timer_lst.nodes| ==>
                m_timer_lst.nodes[i] in old(m_timer_lst.nodes) || fresh(m_timer_lst.nodes[i])
      ensures ok <==> !et && accepts != [] && old(conns.m_user_count) < MAX_FD
      ensures var n := Accepted(et, |accepts|, old(conns.m_user_count));
              conns.open == old(conns.open) + FirstOf(accepts, n) && AcceptsOf(es[|was|..], accepts, n)
      ensures var n := conns.m_user_count - old(conns.m_user_count);
              && 0 <= n <= |accepts| && conns.open == old(conns.open) + FirstOf(accepts, n)
              && (if et then n == |accepts| || conns.m_user_count >= MAX_FD
                  else n <= 1 && (n == 0 ==> accepts == [] || conns.m_user_count >= MAX_FD))
              && forall i :: 0 <= i < n ==> Expires(accepts[i].fd, accepts[i].now + IDLE_LIMIT)
    {
      hide Followed;
      es := was;
      if et {
        es := accept_all(accepts, start, es);
        return false, es;
      }
      if accepts == [] {
        return false, es;
      }
      ok, es := accept_one(accepts[0].fd, accepts[0].now, start, es);
    }

    /** The timer of `sockfd` moves to now + 3 * TIMESLOT. */
    method refresh(sockfd: int, now: int, ghost start: Sys, ghost was: seq<Event>) returns (ghost es: seq<Event>)
      requires Followed(start, was) && sockfd in conns.open
      modifies m_timer_lst, m_timer_lst.nodes
      ensures Followed(start, es) && es == was + [Activity(sockfd, now)] && WorkerCloses(es) == WorkerCloses(was)
      ensures Expires(sockfd, now + IDLE_LIMIT)
      ensures forall i :: 0 <= i < |m_timer_lst.nodes| ==>
                m_timer_lst.nodes[i] in old(m_timer_lst.nodes) || fresh(m_timer_lst.nodes[i])
    {
      hide Sound, Enabled, Run, Reached, Step;
      adjust_timer(sockfd, now);
      RunOneMore(start, was, Activity(sockfd, now));
      NoWorkerClose(was, Activity(sockfd, now));
      es := was + [Activity(sockfd, now)];
    }

    /** The connection ends. */
    method hang_up(sockfd: int, ghost start: Sys, ghost was: seq<Event>) returns (ghost es: seq<Event>)
      requires Followed(start, was) && sockfd in conns.open
      modifies m_timer_lst, m_timer_lst.nodes, conns
      ensures Followed(start, es) && es == was + [Hangup(sockfd)] && WorkerCloses(es) == WorkerCloses(was)
      ensures conns.open == old(conns.open) - {sockfd} && conns.m_user_count == old(conns.m_user_count) - 1
      ensures forall i :: 0 <= i < |m_timer_lst.nodes| ==>
                m_timer_lst.nodes[i] in old(m_timer_lst.nodes) || fresh(m_timer_lst.nodes[i])
    {
      hide Sound, Enabled, Run, Reached, Step;
      deal_timer(sockfd);
      RunOneMore(start, was, Hangup(sockfd));
      NoWorkerClose(was, Hangup(sockfd));
      es := was + [Hangup(sockfd)];
    }

    /** dealwithread and dealwithwrite.  `ok` is what read_once or write returned: to the
        loop itself in the proactor model, through timer_flag in the reactor model, where
        the timer has been moved before. */
    method dealwith(reactor: bool, sockfd: int, ok: bool, now: int, ghost start: Sys, ghost was: seq<Event>)
      returns (ghost es: seq<Event>)
      requires Followed(start, was) && sockfd in conns.open
      modifies m_timer_lst, m_timer_lst.nodes, conns
      ensures Followed(start, es) && WorkerCloses(es) == WorkerCloses(was)
      ensures es == was + (if reactor || ok then [Activity(sockfd, now)] else [])
                    + (if ok then [] else [Hangup(sockfd)])
      ensures if ok then conns.open == old(conns.open) && Expires(sockfd, now + IDLE_LIMIT)
              else conns.open == old(conns.open) - {sockfd}
      ensures conns.m_user_count == old(conns.m_user_count) - if ok then 0 else 1
      ensures forall i :: 0 <= i < |m_timer_lst.nodes| ==>
                m_timer_lst.nodes[i] in old(m_timer_lst.nodes) || fresh(m_timer_lst.nodes[i])
    {
      hide Followed, Valid;
      es := was;
      if reactor || ok {
        es := refresh(sockfd, now, start, es);
      }
      if !ok {
        es := hang_up(sockfd, start, es);
      }
    }

    /** One tick of the timer list, as a run. */
    method tick(now: int, ghost start: Sys, ghost was: seq<Event>) returns (ghost es: seq<Event>)
      requires Followed(start, was)
      modifies m_timer_lst, m_timer_lst.nodes, conns
      ensures Followed(start, es) && es == was + [Tick(now)] && WorkerCloses(es) == WorkerCloses(was)
      ensures Quiet(now)
      ensures conns.open <= old(conns.open)
      ensures forall i :: 0 <= i < |m_timer_lst.nodes| ==>
                m_timer_lst.nodes[i] in old(m_timer_lst.nodes) || fresh(m_timer_lst.nodes[i])
    {
      hide Sound, Run, Reached, Step;
      timer_handler(now);
      RunOneMore(start, was, Tick(now));
      NoWorkerClose(was, Tick(now));
      es := was + [Tick(now)];
    }

    /** close_conn of a worker, as a run. */
    method worker_close(sockfd: int, ghost start: Sys, ghost was: seq<Event>) returns (ghost es: seq<Event>)
      requires Followed(start, was) && sockfd in conns.m_sockfds
      modifies conns
      ensures Followed(start, es) && es == was + [WorkerClose(sockfd)] && WorkerCloses(es) == WorkerCloses(was) + 1
      ensures conns.open == old(conns.open) - {sockfd} && conns.m_sockfds == old(conns.m_sockfds) - {sockfd}
      ensures conns.m_user_count == old(conns.m_user_count) - 1
    {
      hide Sound, Enabled, Run, Reached, Step;
      close_conn(sockfd);
      RunOneMore(start, was, WorkerClose(sockfd));
      NoWorkerClose(was, WorkerClose(sockfd));
      es := was + [WorkerClose(sockfd)];
    }

    /** One thing the loop meets.  The tests on conns.open are the kernel's: it reports and
        hands out only descriptors that fit. */
    method handle(ready: Ready, reactor: bool, et: bool, ghost start: Sys, ghost was: seq<Event>)
      returns (ghost es: seq<Event>)
      requires Followed(start, was)
      modifies m_timer_lst, m_timer_lst.nodes, conns, users_timer
      ensures Followed(start, es) && was <= es
      ensures !ready.Worker? ==> WorkerCloses(es) == WorkerCloses(was)
      ensures Served(old(State()), ready, reactor, et, es[|was|..])
      ensures Untouched(old(conns.open), old(conns.m_sockfds), ready) ==> State() == old(State())
      ensures ClosesOnly([ready], old(conns.open), conns.open) && OpensOnly([ready], old(conns.open), conns.open)
      ensures ready.Listening? && CanAccept(old(conns.open), ready.accepts) ==>
                var n := conns.m_user_count - old(conns.m_user_count);
                && 0 <= n <= |ready.accepts| && conns.open == old(conns.open) + FirstOf(ready.accepts, n)
                && (if et then n == |ready.accepts| || conns.m_user_count >= MAX_FD
                    else n <= 1 && (n == 0 ==> ready.accepts == [] || conns.m_user_count >= MAX_FD))
                && forall i :: 0 <= i < n ==> Expires(ready.accepts[i].fd, ready.accepts[i].now + IDLE_LIMIT)
      ensures ready.InOut? && ready.fd in old(conns.open) && ready.ok ==>
                conns.open == old(conns.open) && Expires(ready.fd, ready.now + IDLE_LIMIT)
      ensures HungUp(ready) && ready.fd in old(conns.open) ==>
                conns.open == old(conns.open) - {ready.fd} && conns.m_user_count == old(conns.m_user_count) - 1
      ensures ready.Worker? && ready.fd in old(conns.m_sockfds) ==>
                && conns.open == old(conns.open) - {ready.fd} && conns.m_sockfds == old(conns.m_sockfds) - {ready.fd}
                && conns.m_user_count == old(conns.m_user_count) - 1
      ensures forall i :: 0 <= i < |m_timer_lst.nodes| ==>
                m_timer_lst.nodes[i] in old(m_timer_lst.nodes) || fresh(m_timer_lst.nodes[i])
    {
      hide Followed, Valid, AcceptsOf, CanAccept, ClosesOnly, OpensOnly, Expires, Offers;
      es := was;
      ghost var open, count := conns.open, conns.m_user_count;
      match ready {
        case Listening(accepts) =>
          if CanAccept(conns.open, accepts) {
            var ok;
            ok, es := dealclientdata(et, accepts, start, es);
            ChangeByAccepts(ready, open, conns.m_user_count - count);
          } else {
            ChangeByClose(ready, open, conns.open);
          }
        case Closing(fd) =>
          if fd in conns.open {
            es := hang_up(fd, start, es);
          }
          ChangeByClose(ready, open, conns.open);
        case Signalled(_, _) =>
          ChangeByClose(ready, open, conns.open);
        case InOut(fd, ok, now) =>
          if fd in conns.open {
            es := dealwith(reactor, fd, ok, now, start, es);
          }
          ChangeByClose(ready, open, conns.open);
        case Worker(fd) =>
          if fd in conns.m_sockfds {
            es := worker_close(fd, start, es);
          }
          ChangeByClose(ready, open, conns.open);
      }
    }

    /** Rounds of eventLoop: what each meets, in order, and a tick when the alarm has gone
        off; up to the round that is told to stop, or a failure of epoll_wait.  The count
        is that of the list less what workers have closed themselves. */
    method eventLoop(rounds: seq<Round>, reactor: bool, et: bool) returns (ghost es: seq<Event>)
      requires Valid() && State() == START
      modifies m_timer_lst, m_timer_lst.nodes, conns, users_timer
      ensures RoundsServed(rounds[..Handled(rounds)], reactor, et, [], es)
      ensures Valid() && Run(START, es) && Reached(START, es) == State()
      ensures conns.m_user_count == |m_timer_lst.nodes| - WorkerCloses(es)
      ensures NoWorkers(rounds) ==> conns.m_user_count == |m_timer_lst.nodes| == |conns.open| <= MAX_FD
      ensures var n := Handled(rounds);
              n > 0 && Alarmed(rounds[n - 1].ready) ==>
                && Quiet(rounds[n - 1].now)
                && (Timely(es) ==> ActiveAfter(State(), Seen(START, map[], es), rounds[n - 1].now - IDLE_LIMIT))
    {
      hide Valid, Run, Reached, NoWorkers, Handled, RoundsServed, RoundServed, Terminated, Sound, Step;
      hide Alarmed, Timely, ActiveAfter, Seen, OpensOnly, ClosesOnly;
      es := [];
      StartsFollowed(rounds, reactor, et);
      var round, stop_server := 0, false;
      while !stop_server && round < |rounds|
        invariant 0 <= round <= |rounds|
        invariant Handled(rounds) == round + if stop_server then 0 else Handled(rounds[round..])
        invariant Followed(START, es) && (NoWorkers(rounds) ==> WorkerCloses(es) == 0)
        invariant RoundsServed(rounds[..round], reactor, et, [], es)
        invariant round > 0 ==> rounds[round - 1].Round?
        invariant round > 0 && Alarmed(rounds[round - 1].ready) ==> Quiet(rounds[round - 1].now)
        invariant forall i :: 0 <= i < |m_timer_lst.nodes| ==>
                    m_timer_lst.nodes[i] in old(m_timer_lst.nodes) || fresh(m_timer_lst.nodes[i])
        decreases |rounds| - round
      {
        HandledNext(rounds, round);
        if rounds[round].Failure? {
          break;
        }
        NoWorkersIn(rounds, round);
        ghost var sofar := es;
        stop_server, es := one_round(rounds[round].ready, rounds[round].now, reactor, et, es);
        OneMoreRound(rounds, round, reactor, et, sofar, es);
        round := round + 1;
      }
      if round == |rounds| {
        NothingHandled(rounds[round..]);
      }
      CountAtEnd(rounds, es);
      if round > 0 && Alarmed(rounds[round - 1].ready) && Timely(es) {
        HeadOfEntries(m_timer_lst.nodes);
        NothingDueNothingIdle(es, rounds[round - 1].now);
      }
    }

    method one_round(ready: seq<Ready>, now: int, reactor: bool, et: bool, ghost was: seq<Event>)
      returns (stop: bool, ghost es: seq<Event>)
      requires Followed(START, was)
      modifies m_timer_lst, m_timer_lst.nodes, conns, users_timer
      ensures Followed(START, es) && was <= es
      ensures !WorkerIn(ready) ==> WorkerCloses(es) == WorkerCloses(was)
      ensures stop <==> Terminated(ready)
      ensures RoundServed(ready, reactor, et, now, was, es)
      ensures Alarmed(ready) ==> Quiet(now)
      ensures !Alarmed(ready) ==> ClosesOnly(ready, old(conns.open), conns.open)
      ensures OpensOnly(ready, old(conns.open), conns.open)
      ensures forall i :: 0 <= i < |m_timer_lst.nodes| ==>
                m_timer_lst.nodes[i] in old(m_timer_lst.nodes) || fresh(m_timer_lst.nodes[i])
    {
      hide Followed, Valid, AllServed, Alarmed, Terminated, WorkerIn, Quiet;
      var timeout;
      timeout, stop, es := serve(ready, reactor, et, was);
      if timeout {
        ghost var sofar := es;
        es := tick(now, START, es);
        assert es[..|es| - 1] == sofar;
      }
    }

    /** The for loop over what has been met. */
    method serve(ready: seq<Ready>, reactor: bool, et: bool, ghost was: seq<Event>)
      returns (timeout: bool, stop: bool, ghost es: seq<Event>)
      requires Followed(START, was)
      modifies m_timer_lst, m_timer_lst.nodes, conns, users_timer
      ensures Followed(START, es) && was <= es && (timeout <==> Alarmed(ready)) && (stop <==> Terminated(ready))
      ensures !WorkerIn(ready) ==> WorkerCloses(es) == WorkerCloses(was)
      ensures AllServed(ready, reactor, et, was, es)
      ensures ClosesOnly(ready, old(conns.open), conns.open) && OpensOnly(ready, old(conns.open), conns.open)
      ensures forall i :: 0 <= i < |m_timer_lst.nodes| ==>
                m_timer_lst.nodes[i] in old(m_timer_lst.nodes) || fresh(m_timer_lst.nodes[i])
    {
      hide Valid, State, Run, Reached, Served, SoFar, AllServed, WorkerIn, Alarmed, Terminated, WorkerCloses;
      hide ClosesOnly, OpensOnly, Untouched, CanAccept, HungUp;
      es, timeout, stop := was, false, false;
      NoneServed(ready, reactor, et, was);
      NoChange(ready, conns.open);
      var i := 0;
      while i < |ready|
        invariant 0 <= i <= |ready| && Followed(START, es)
        invariant SoFar(ready, i, reactor, et, was, es, timeout, stop)
        invariant ClosesOnly(ready[..i], old(conns.open), conns.open)
        invariant OpensOnly(ready[..i], old(conns.open), conns.open)
        invariant forall k :: 0 <= k < |m_timer_lst.nodes| ==>
                    m_timer_lst.nodes[k] in old(m_timer_lst.nodes) || fresh(m_timer_lst.nodes[k])
      {
        ghost var sofar, alarm, term, open := es, timeout, stop, conns.open;
        if ready[i].Signalled? {
          timeout := timeout || ready[i].alarm;
          stop := stop || ready[i].term;
        }
        es := handle(ready[i], reactor, et, START, es);
        OneMoreServed(ready, i, reactor, et, was, sofar, es, alarm, term);
        OneMoreChange(ready, i, old(conns.open), open, conns.open);
        i := i + 1;
      }
      AllSoFar(ready, reactor, et, was, es, timeout, stop);
      assert ready[..|ready|] == ready;
    }
  }

  /** What the loop meets: what epoll_wait reports, with what the calls it leads to
      return and what time() returns then, and a worker thread that closes a connection
      meanwhile. */
  datatype Ready =
    | Listening(accepts: seq<Accepting>)
    | Closing(fd: int)
    | Signalled(alarm: bool, term: bool)
    | InOut(fd: int, ok: bool, now: int)
    | Worker(fd: int)

  datatype Accepting = Accepting(fd: int, now: int)

  /** The peer has closed, or the read or the write has failed. */
  predicate HungUp(ready: Ready) { ready.Closing? || (ready.InOut? && !ready.ok) }

  predicate Ends(ready: Ready, fd: int) { (HungUp(ready) || ready.Worker?) && ready.fd == fd }

  predicate Offers(ready: Ready, fd: int) {
    ready.Listening? && exists i :: 0 <= i < |ready.accepts| && ready.accepts[i].fd == fd
  }

  predicate Offered(ready: seq<Ready>, fd: int) { exists i :: 0 <= i < |ready| && Offers(ready[i], fd) }

  /** Only what hung up, failed, or was closed by a worker has been closed. */
  ghost predicate ClosesOnly(ready: seq<Ready>, before: set<int>, after: set<int>) {
    forall fd :: fd in before && fd !in after ==> exists i :: 0 <= i < |ready| && Ends(ready[i], fd)
  }

  /** Only what accept returned has been opened, and what hung up has been closed. */
  ghost predicate OpensOnly(ready: seq<Ready>, before: set<int>, after: set<int>) {
    && (forall fd :: fd in after && fd !in before ==> Offered(ready, fd))
    && (forall i :: 0 <= i < |ready| && HungUp(ready[i]) && !Offered(ready[i + 1..], ready[i].fd) ==>
          ready[i].fd !in after)
  }

  lemma NoChange(ready: seq<Ready>, open: set<int>)
    ensures ClosesOnly(ready[..0], open, open) && OpensOnly(ready[..0], open, open)
  {
  }

  lemma OneMoreChange(ready: seq<Ready>, i: nat, before: set<int>, mid: set<int>, after: set<int>)
    requires i < |ready|
    requires ClosesOnly(ready[..i], before, mid) && OpensOnly(ready[..i], before, mid)
    requires ClosesOnly([ready[i]], mid, after) && OpensOnly([ready[i]], mid, after)
    ensures ClosesOnly(ready[..i + 1], before, after) && OpensOnly(ready[..i + 1], before, after)
  {
    hide Offers, Ends;
    var r, all := ready[i], ready[..i + 1];
    assert all[i] == r && [r][0] == r;
    forall fd | fd in before && fd !in after
      ensures exists k :: 0 <= k < |all| && Ends(all[k], fd)
    {
      if fd !in mid {
        var k :| 0 <= k < i && Ends(ready[..i][k], fd);
        assert Ends(all[k], fd);
      }
    }
    forall fd | fd in after && fd !in before
      ensures Offered(all, fd)
    {
      if fd in mid {
        var k :| 0 <= k < i && Offers(ready[..i][k], fd);
        assert Offers(all[k], fd);
      }
    }
    forall k | 0 <= k < |all| && HungUp(all[k]) && !Offered(all[k + 1..], all[k].fd)
      ensures all[k].fd !in after
    {
      if k < i {
        assert all[k] == ready[..i][k] && all[k + 1..] == ready[..i][k + 1..] + [r];
        OfferedPrefix(ready[..i][k + 1..], r, all[k].fd);
      } else {
        assert [r][1..] == [];
      }
    }
  }

  lemma ChangeByAccepts(ready: Ready, before: set<int>, n: nat)
    requires ready.Listening? && n <= |ready.accepts|
    ensures ClosesOnly([ready], before, before + FirstOf(ready.accepts, n))
    ensures OpensOnly([ready], before, before + FirstOf(ready.accepts, n))
  {
    assert [ready][0] == ready;
    forall fd | fd in FirstOf(ready.accepts, n)
      ensures Offers([ready][0], fd)
    {
    }
  }

  lemma ChangeByClose(ready: Ready, before: set<int>, after: set<int>)
    requires after <= before && (ready.Listening? || ready.Signalled? || !Ends(ready, ready.fd) ==> after == before)
    requires !ready.Listening? && !ready.Signalled? ==> before - {ready.fd} <= after
    requires HungUp(ready) ==> ready.fd !in after
    ensures ClosesOnly([ready], before, after) && OpensOnly([ready], before, after)
  {
    assert [ready][0] == ready;
  }

  lemma OfferedPrefix(front: seq<Ready>, r: Ready, fd: int)
    ensures Offered(front + [r], fd) <==> Offered(front, fd) || Offers(r, fd)
  {
    hide Offers;
    var all := front + [r];
    assert all[|front|] == r && forall k :: 0 <= k < |front| ==> all[k] == front[k];
  }

  /** What changes nothing: a signal, what concerns no connection, what accept would
      not return. */
  predicate Untouched(open: set<int>, socks: set<int>, ready: Ready) {
    match ready
    case Listening(accepts) => !CanAccept(open, accepts)
    case Closing(fd) => fd !in open
    case Signalled(_, _) => true
    case InOut(fd, _, _) => fd !in open
    case Worker(fd) => fd !in socks
  }

  /** `now` is the time of the tick, if there is one. */
  datatype Round = Round(ready: seq<Ready>, now: int) | Failure

  predicate Alarmed(ready: seq<Ready>) {
    exists i :: 0 <= i < |ready| && ready[i].Signalled? && ready[i].alarm
  }

  predicate Terminated(ready: seq<Ready>) {
    exists i :: 0 <= i < |ready| && ready[i].Signalled? && ready[i].term
  }

  predicate WorkerIn(ready: seq<Ready>) {
    exists i :: 0 <= i < |ready| && ready[i].Worker?
  }

  ghost predicate NoWorkers(rounds: seq<Round>) {
    forall r <- rounds :: r.Round? ==> !WorkerIn(r.ready)
  }

  /** How many rounds are handled: up to a failure, or the round that is told to stop. */
  function Handled(rounds: seq<Round>): (n: nat)
    ensures n <= |rounds| && forall i :: 0 <= i < n ==> rounds[i].Round?
    ensures forall i :: 0 <= i < n - 1 ==> !Terminated(rounds[i].ready)
    ensures n < |rounds| ==> rounds[n].Failure? || (n > 0 && Terminated(rounds[n - 1].ready))
  {
    if rounds == [] || rounds[0].Failure? then 0
    else if Terminated(rounds[0].ready) then 1
    else 1 + Handled(rounds[1..])
  }

  lemma OneMoreReady(ready: seq<Ready>, i: nat)
    requires i < |ready|
    ensures var r, front := ready[..i + 1], ready[..i];
            && (WorkerIn(r) <==> WorkerIn(front) || ready[i].Worker?)
            && (Alarmed(r) <==> Alarmed(front) || (ready[i].Signalled? && ready[i].alarm))
            && (Terminated(r) <==> Terminated(front) || (ready[i].Signalled? && ready[i].term))
  {
    var r, front := ready[..i + 1], ready[..i];
    assert r[i] == ready[i] && forall k :: 0 <= k < i ==> r[k] == front[k];
    if WorkerIn(front) {
      var k :| 0 <= k < |front| && front[k].Worker?;
      assert r[k].Worker?;
    }
    if Alarmed(front) {
      var k :| 0 <= k < |front| && front[k].Signalled? && front[k].alarm;
      assert r[k].alarm;
    }
    if Terminated(front) {
      var k :| 0 <= k < |front| && front[k].Signalled? && front[k].term;
      assert r[k].term;
    }
  }

  lemma NothingHandled(rounds: seq<Round>)
    requires rounds == []
    ensures Handled(rounds) == 0
  {
  }

  lemma NoWorkersIn(rounds: seq<Round>, i: nat)
    requires i < |rounds| && rounds[i].Round?
    ensures NoWorkers(rounds) ==> !WorkerIn(rounds[i].ready)
  {
  }

  lemma StartsFollowed(rounds: seq<Round>, reactor: bool, et: bool)
    ensures Run(START, []) && Reached(START, []) == START && WorkerCloses([]) == 0
    ensures RoundsServed(rounds[..0], reactor, et, [], []) && rounds[0..] == rounds
  {
  }

  lemma CountAtEnd(rounds: seq<Round>, es: seq<Event>)
    requires Run(START, es) && (NoWorkers(rounds) ==> WorkerCloses(es) == 0)
    ensures var s := Reached(START, es);
            && s.userCount == |s.timers| - WorkerCloses(es)
            && (NoWorkers(rounds) ==> s.userCount == |s.timers| == |s.open| <= MAX_FD)
  {
    CountIsListLessWorkerCloses(START, es);
    hide NoWorkers;
    if NoWorkers(rounds) {
      ConnectionsMatchTimers(START, es);
    }
  }

  lemma HandledNext(rounds: seq<Round>, i: nat)
    requires i < |rounds|
    ensures Handled(rounds[i..]) == if rounds[i].Failure? then 0
                                    else if Terminated(rounds[i].ready) then 1
                                    else 1 + Handled(rounds[i + 1..])
  {
    assert rounds[i..][0] == rounds[i] && rounds[i..][1..] == rounds[i + 1..];
    hide Terminated;
  }

  predicate AcceptOf(e: Event, fd: int, now: int) {
    e.Accept? && e.timer.sockfd == fd && e.now == now
  }

  /** `es` are the accepts of the first n descriptors. */
  ghost predicate AcceptsOf(es: seq<Event>, accepts: seq<Accepting>, n: nat) {
    |es| == n <= |accepts| && forall i :: 0 <= i < n ==> AcceptOf(es[i], accepts[i].fd, accepts[i].now)
  }

  /** What a ready descriptor does to a server in state s. */
  ghost predicate Served(s: Sys, ready: Ready, reactor: bool, et: bool, es: seq<Event>) {
    match ready
    case Listening(accepts) =>
      if CanAccept(s.open, accepts) then AcceptsOf(es, accepts, Accepted(et, |accepts|, s.userCount))
      else es == []
    case Closing(fd) => es == if fd in s.open then [Hangup(fd)] else []
    case Signalled(_, _) => es == []
    case Worker(fd) => es == if fd in s.socks then [WorkerClose(fd)] else []
    case InOut(fd, ok, now) =>
      es == if fd !in s.open then []
            else (if reactor || ok then [Activity(fd, now)] else []) + (if ok then [] else [Hangup(fd)])
  }

  /** From the events `was` on, the ready descriptors lead to the events up to `es`. */
  ghost predicate AllServed(ready: seq<Ready>, reactor: bool, et: bool, was: seq<Event>, es: seq<Event>)
    decreases |ready|
  {
    if ready == [] then es == was
    else exists k: nat :: ServedLast(ready, reactor, et, was, es, k)
  }

  ghost predicate ServedLast(ready: seq<Ready>, reactor: bool, et: bool,
                             was: seq<Event>, es: seq<Event>, k: nat)
    requires ready != []
    decreases |ready|, 0
  {
    var last := |ready| - 1;
    k <= |es| && AllServed(ready[..last], reactor, et, was, es[..k])
    && Served(Reached(START, es[..k]), ready[last], reactor, et, es[k..])
  }

  /** ... and a tick, if the alarm has gone off. */
  ghost predicate RoundServed(ready: seq<Ready>, reactor: bool, et: bool, now: int, was: seq<Event>, es: seq<Event>) {
    if Alarmed(ready) then
      es != [] && es[|es| - 1] == Tick(now) && AllServed(ready, reactor, et, was, es[..|es| - 1])
    else AllServed(ready, reactor, et, was, es)
  }

  ghost predicate RoundsServed(rounds: seq<Round>, reactor: bool, et: bool, was: seq<Event>, es: seq<Event>)
    decreases |rounds|
  {
    if rounds == [] then es == was
    else exists k: nat :: LastRoundServed(rounds, reactor, et, was, es, k)
  }

  ghost predicate LastRoundServed(rounds: seq<Round>, reactor: bool, et: bool,
                                  was: seq<Event>, es: seq<Event>, k: nat)
    requires rounds != []
    decreases |rounds|, 0
  {
    var last := |rounds| - 1;
    k <= |es| && RoundsServed(rounds[..last], reactor, et, was, es[..k])
    && rounds[last].Round? && RoundServed(rounds[last].ready, reactor, et, rounds[last].now, es[..k], es)
  }

  lemma LastOf(ready: seq<Ready>, reactor: bool, et: bool, was: seq<Event>, es: seq<Event>) returns (k: nat)
    requires ready != [] && AllServed(ready, reactor, et, was, es)
    ensures ServedLast(ready, reactor, et, was, es, k)
  {
    k :| ServedLast(ready, reactor, et, was, es, k);
  }

  /** Serving a and then b is serving them one after the other. */
  lemma {:induction false} ServedInTurn(a: seq<Ready>, b: seq<Ready>, reactor: bool, et: bool,
                                        was: seq<Event>, es: seq<Event>)
    ensures AllServed(a + b, reactor, et, was, es) <==>
            exists k: nat :: k <= |es| && AllServed(a, reactor, et, was, es[..k])
                             && AllServed(b, reactor, et, es[..k], es)
    decreases |b|
  {
    hide Served, Reached;
    if b == [] {
      assert a + b == a && es[..|es|] == es;
    } else {
      var all, last := a + b, |b| - 1;
      assert all[..|all| - 1] == a + b[..last] && all[|all| - 1] == b[last];
      forall m: nat | m <= |es|
        ensures AllServed(all[..|all| - 1], reactor, et, was, es[..m]) <==>
                exists k: nat :: k <= m && AllServed(a, reactor, et, was, es[..k])
                                 && AllServed(b[..last], reactor, et, es[..k], es[..m])
      {
        ServedInTurn(a, b[..last], reactor, et, was, es[..m]);
        assert forall k: nat :: k <= m ==> es[..m][..k] == es[..k];
      }
      if AllServed(all, reactor, et, was, es) {
        var m := LastOf(all, reactor, et, was, es);
        var k: nat :| k <= m && AllServed(a, reactor, et, was, es[..k])
                      && AllServed(b[..last], reactor, et, es[..k], es[..m]);
        assert ServedLast(b, reactor, et, es[..k], es, m);
      }
      if k: nat :| k <= |es| && AllServed(a, reactor, et, was, es[..k]) && AllServed(b, reactor, et, es[..k], es) {
        var m := LastOf(b, reactor, et, es[..k], es);
        assert k <= m by { ServedGrows(b[..last], reactor, et, es[..k], es[..m]); }
        assert ServedLast(all, reactor, et, was, es, m);
      }
    }
  }

  /** What one thing alone leads to, and nothing. */
  lemma ServedAlone(r: Ready, reactor: bool, et: bool, was: seq<Event>, es: seq<Event>)
    ensures AllServed([], reactor, et, was, es) <==> es == was
    ensures AllServed([r], reactor, et, was, es) <==>
            was <= es && Served(Reached(START, was), r, reactor, et, es[|was|..])
  {
    hide Served, Reached;
    assert [r][..0] == [];
    if was <= es && Served(Reached(START, was), r, reactor, et, es[|was|..]) {
      assert es[..|was|] == was;
      assert ServedLast([r], reactor, et, was, es, |was|);
    }
    if AllServed([r], reactor, et, was, es) {
      var k := LastOf([r], reactor, et, was, es);
      assert es[..k] == was && k == |was|;
    }
  }

  lemma {:induction false} ServedGrows(ready: seq<Ready>, reactor: bool, et: bool, was: seq<Event>, es: seq<Event>)
    requires AllServed(ready, reactor, et, was, es)
    ensures was <= es
    decreases |ready|
  {
    hide Served, Reached;
    if ready != [] {
      var k: nat :| ServedLast(ready, reactor, et, was, es, k);
      ServedGrows(ready[..|ready| - 1], reactor, et, was, es[..k]);
    }
  }

  lemma LastRoundOf(rounds: seq<Round>, reactor: bool, et: bool, was: seq<Event>, es: seq<Event>) returns (k: nat)
    requires rounds != [] && RoundsServed(rounds, reactor, et, was, es)
    ensures LastRoundServed(rounds, reactor, et, was, es, k)
  {
    k :| LastRoundServed(rounds, reactor, et, was, es, k);
  }

  /** The rounds a and then b are served one after the other. */
  lemma {:induction false} RoundsInTurn(a: seq<Round>, b: seq<Round>, reactor: bool, et: bool,
                                        was: seq<Event>, es: seq<Event>)
    ensures RoundsServed(a + b, reactor, et, was, es) <==>
            exists k: nat :: k <= |es| && RoundsServed(a, reactor, et, was, es[..k])
                             && RoundsServed(b, reactor, et, es[..k], es)
    decreases |b|
  {
    hide RoundServed;
    if b == [] {
      assert a + b == a && es[..|es|] == es;
    } else {
      var all, last := a + b, |b| - 1;
      assert all[..|all| - 1] == a + b[..last] && all[|all| - 1] == b[last];
      forall m: nat | m <= |es|
        ensures RoundsServed(all[..|all| - 1], reactor, et, was, es[..m]) <==>
                exists k: nat :: k <= m && RoundsServed(a, reactor, et, was, es[..k])
                                 && RoundsServed(b[..last], reactor, et, es[..k], es[..m])
      {
        RoundsInTurn(a, b[..last], reactor, et, was, es[..m]);
        assert forall k: nat :: k <= m ==> es[..m][..k] == es[..k];
      }
      if RoundsServed(all, reactor, et, was, es) {
        var m := LastRoundOf(all, reactor, et, was, es);
        var k: nat :| k <= m && RoundsServed(a, reactor, et, was, es[..k])
                      && RoundsServed(b[..last], reactor, et, es[..k], es[..m]);
        assert LastRoundServed(b, reactor, et, es[..k], es, m);
      }
      if k: nat :| k <= |es| && RoundsServed(a, reactor, et, was, es[..k])
                   && RoundsServed(b, reactor, et, es[..k], es) {
        var m := LastRoundOf(b, reactor, et, es[..k], es);
        assert k <= m by { RoundsGrow(b[..last], reactor, et, es[..k], es[..m]); }
        assert LastRoundServed(all, reactor, et, was, es, m);
      }
    }
  }

  lemma {:induction false} RoundsGrow(rounds: seq<Round>, reactor: bool, et: bool, was: seq<Event>, es: seq<Event>)
    requires RoundsServed(rounds, reactor, et, was, es)
    ensures was <= es
    decreases |rounds|
  {
    if rounds != [] {
      var r := rounds[|rounds| - 1];
      var k := LastRoundOf(rounds, reactor, et, was, es);
      RoundsGrow(rounds[..|rounds| - 1], reactor, et, was, es[..k]);
      hide RoundServed;
      RoundGrows(r.ready, reactor, et, r.now, es[..k], es);
    }
  }

  /** A round alone serves all that is ready, then ticks iff the alarm has gone off. */
  lemma RoundAlone(r: Round, reactor: bool, et: bool, was: seq<Event>, es: seq<Event>)
    ensures RoundsServed([], reactor, et, was, es) <==> es == was
    ensures RoundsServed([r], reactor, et, was, es) <==>
            && r.Round?
            && exists served :: AllServed(r.ready, reactor, et, was, served)
                                && es == served + if Alarmed(r.ready) then [Tick(r.now)] else []
  {
    OneRound(r, reactor, et, was, es);
    hide RoundsServed, AllServed, Alarmed;
    if r.Round? {
      ServedThenTick(r.ready, reactor, et, r.now, was, es);
    }
    assert RoundsServed([], reactor, et, was, es) <==> es == was by { NoRounds(reactor, et, was, es); }
  }

  lemma NoRounds(reactor: bool, et: bool, was: seq<Event>, es: seq<Event>)
    ensures RoundsServed([], reactor, et, was, es) <==> es == was
  {
  }

  lemma OneRound(r: Round, reactor: bool, et: bool, was: seq<Event>, es: seq<Event>)
    ensures RoundsServed([r], reactor, et, was, es) <==> r.Round? && RoundServed(r.ready, reactor, et, r.now, was, es)
  {
    assert [r][..0] == [];
    if RoundsServed([r], reactor, et, was, es) {
      var k := LastRoundOf([r], reactor, et, was, es);
      hide RoundServed;
      assert es[..k] == was;
    }
    if r.Round? && RoundServed(r.ready, reactor, et, r.now, was, es) {
      RoundGrows(r.ready, reactor, et, r.now, was, es);
      hide RoundServed;
      assert es[..|was|] == was;
      assert LastRoundServed([r], reactor, et, was, es, |was|);
    }
  }

  lemma RoundGrows(ready: seq<Ready>, reactor: bool, et: bool, now: int, was: seq<Event>, es: seq<Event>)
    requires RoundServed(ready, reactor, et, now, was, es)
    ensures was <= es
  {
    hide Alarmed, AllServed;
    ServedGrows(ready, reactor, et, was, if Alarmed(ready) then es[..|es| - 1] else es);
  }

  lemma ServedThenTick(ready: seq<Ready>, reactor: bool, et: bool, now: int, was: seq<Event>, es: seq<Event>)
    ensures RoundServed(ready, reactor, et, now, was, es) <==>
            exists served :: AllServed(ready, reactor, et, was, served)
                             && es == served + if Alarmed(ready) then [Tick(now)] else []
  {
    hide AllServed, Alarmed;
    var ticks := if Alarmed(ready) then [Tick(now)] else [];
    if RoundServed(ready, reactor, et, now, was, es) {
      var served := if Alarmed(ready) then es[..|es| - 1] else es;
      assert AllServed(ready, reactor, et, was, served) && es == served + ticks;
    }
    if served :| AllServed(ready, reactor, et, was, served) && es == served + ticks {
      assert es == served || es[..|es| - 1] == served;
    }
  }

  /** The first i of `ready` have been served, and signals have been noted. */
  ghost predicate SoFar(ready: seq<Ready>, i: nat, reactor: bool, et: bool,
                        was: seq<Event>, es: seq<Event>, alarm: bool, term: bool)
    requires i <= |ready|
  {
    && was <= es && AllServed(ready[..i], reactor, et, was, es)
    && (!WorkerIn(ready[..i]) ==> WorkerCloses(es) == WorkerCloses(was))
    && (alarm <==> Alarmed(ready[..i])) && (term <==> Terminated(ready[..i]))
  }

  lemma NoneServed(ready: seq<Ready>, reactor: bool, et: bool, was: seq<Event>)
    ensures SoFar(ready, 0, reactor, et, was, was, false, false)
  {
  }

  lemma AllSoFar(ready: seq<Ready>, reactor: bool, et: bool,
                 was: seq<Event>, es: seq<Event>, alarm: bool, term: bool)
    requires SoFar(ready, |ready|, reactor, et, was, es, alarm, term)
    ensures was <= es && AllServed(ready, reactor, et, was, es)
    ensures !WorkerIn(ready) ==> WorkerCloses(es) == WorkerCloses(was)
    ensures (alarm <==> Alarmed(ready)) && (term <==> Terminated(ready))
  {
    hide AllServed, WorkerIn, Alarmed, Terminated, WorkerCloses;
    assert ready[..|ready|] == ready;
  }

  lemma OneMoreServed(ready: seq<Ready>, i: nat, reactor: bool, et: bool,
                      was: seq<Event>, mid: seq<Event>, es: seq<Event>, alarm: bool, term: bool)
    requires i < |ready| && SoFar(ready, i, reactor, et, was, mid, alarm, term)
    requires mid <= es && Served(Reached(START, mid), ready[i], reactor, et, es[|mid|..])
    requires !ready[i].Worker? ==> WorkerCloses(es) == WorkerCloses(mid)
    ensures SoFar(ready, i + 1, reactor, et, was, es,
                  alarm || (ready[i].Signalled? && ready[i].alarm), term || (ready[i].Signalled? && ready[i].term))
  {
    hide Served, Reached, AllServed, WorkerIn, Alarmed, Terminated, WorkerCloses;
    OneMoreReady(ready, i);
    ServedNext(ready, i, reactor, et, was, mid, es);
  }

  lemma ServedNext(ready: seq<Ready>, i: nat, reactor: bool, et: bool,
                   was: seq<Event>, mid: seq<Event>, es: seq<Event>)
    requires i < |ready| && AllServed(ready[..i], reactor, et, was, mid)
    requires mid <= es && Served(Reached(START, mid), ready[i], reactor, et, es[|mid|..])
    ensures AllServed(ready[..i + 1], reactor, et, was, es)
  {
    assert ready[..i + 1][..i] == ready[..i] && es[..|mid|] == mid;
    hide Served, Reached;
    assert ServedLast(ready[..i + 1], reactor, et, was, es, |mid|);
  }

  lemma OneMoreRound(rounds: seq<Round>, i: nat, reactor: bool, et: bool, mid: seq<Event>, es: seq<Event>)
    requires i < |rounds| && RoundsServed(rounds[..i], reactor, et, [], mid)
    requires mid <= es && rounds[i].Round? && RoundServed(rounds[i].ready, reactor, et, rounds[i].now, mid, es)
    ensures RoundsServed(rounds[..i + 1], reactor, et, [], es)
  {
    assert rounds[..i + 1][..i] == rounds[..i] && es[..|mid|] == mid;
    hide RoundServed;
    assert LastRoundServed(rounds[..i + 1], reactor, et, [], es, |mid|);
  }

  /** accept returns free descriptors, each once. */
  predicate CanAccept(open: set<int>, accepts: seq<Accepting>) {
    && (forall i :: 0 <= i < |accepts| ==> 0 <= accepts[i].fd < MAX_FD && accepts[i].fd !in open)
    && (forall i, j :: 0 <= i < j < |accepts| ==> accepts[i].fd != accepts[j].fd)
  }

  ghost function FirstOf(accepts: seq<Accepting>, n: nat): set<int>
    requires n <= |accepts|
  {
    set i | 0 <= i < n :: accepts[i].fd
  }

  /** How many of the accepted descriptors get a connection. */
  function Accepted(et: bool, n: nat, userCount: int): nat {
    var room := if userCount < MAX_FD then MAX_FD - userCount else 0;
    var tried := if et || n == 0 then n else 1;
    if tried <= room then tried else room
  }

  lemma {:induction false} NoWorkerClose(es: seq<Event>, e: Event)
    ensures WorkerCloses(es + [e]) == WorkerCloses(es) + if e.WorkerClose? then 1 else 0
  {
    if es != [] {
      assert (es + [e])[1..] == es[1..] + [e];
      NoWorkerClose(es[1..], e);
    } else {
      assert [e][1..] == [];
    }
  }

  lemma ActivityStep(s: Sys, fd: int, now: int)
    requires Sound(s) && fd in s.open
    ensures Enabled(s, Activity(fd, now)) && Sound(Step(s, Activity(fd, now)))
    ensures var k := Find(s.timers, s.table[fd]);
            k < |s.timers| &&
            Step(s, Activity(fd, now)) == s.(timers := Adjusted(SetExpire(s.timers, k, now + IDLE_LIMIT), k))
  {
    StepKeepsSound(s, Activity(fd, now));
  }

  lemma HangupStep(s: Sys, fd: int)
    requires Sound(s) && fd in s.open
    ensures Enabled(s, Hangup(fd)) && Sound(Step(s, Hangup(fd)))
    ensures var k := Find(s.timers, s.table[fd]);
            k < |s.timers| &&
            Step(s, Hangup(fd)) == s.(timers := RemoveAt(s.timers, k), open := s.open - {fd},
                                      userCount := s.userCount - 1)
  {
    StepKeepsSound(s, Hangup(fd));
  }

  lemma TickStep(s: Sys, now: int)
    requires Sound(s)
    ensures Sound(Step(s, Tick(now)))
    ensures var n := Due(s.timers, now);
            Step(s, Tick(now)) == s.(timers := s.timers[n..], open := s.open - Fds(s.timers[..n]),
                                     userCount := s.userCount - n)
  {
    StepKeepsSound(s, Tick(now));
  }

  lemma SplitEntries(s: seq<UtilTimer>, n: nat)
    requires n <= |s|
    ensures EntriesOf(s[n..]) == EntriesOf(s)[n..] && EntriesOf(s[..n]) == EntriesOf(s)[..n]
    ensures Descriptors(s[..n]) == NodeFds(EntriesOf(s)[..n])
    ensures DescriptorSet(s[..n]) == Fds(EntriesOf(s)[..n])
  {
    hide EntriesOf;
    var e := EntriesOf(s);
    assert forall i :: 0 <= i < n ==> e[..n][i].node == s[..n][i];
  }

  ghost function NodeFds(s: seq<Entry<UtilTimer>>): seq<int> {
    seq(|s|, i requires 0 <= i < |s| => s[i].node.sockfd)
  }

  lemma HeadOfEntries(s: seq<UtilTimer>)
    ensures |EntriesOf(s)| == |s| && (s != [] ==> EntriesOf(s)[0].expire == s[0].expire)
  {
    hide EntriesOf;
  }

  lemma NodesListed(s: seq<UtilTimer>)
    ensures forall t :: Listed(EntriesOf(s), t) <==> t in s
  {
    forall t | t in s
      ensures Listed(EntriesOf(s), t)
    {
      var k :| 0 <= k < |s| && s[k] == t;
      assert EntriesOf(s)[k].node == t;
    }
  }
}
