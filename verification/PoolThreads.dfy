/** threadpool and connection_pool in place: each method is one locked region or one
    semaphore operation, and does what the step of the same name in Pools does. */
module PoolThreads {
  import opened Pools
  import opened Wrappers

  class SharedPools {
    var m_workqueue: seq<Request>
    const m_max_requests: nat
    var m_queuestat: nat
    var connList: seq<Conn>
    var m_FreeConn: int
    var m_CurConn: int
    var m_MaxConn: int
    var reserve: nat
    /** Where the threads stand, and what has gone through the queue. */
    ghost var unposted: nat
    ghost var workers: seq<PC>
    ghost var accepted: seq<Request>
    ghost var dispatched: seq<Request>

    ghost function Now(): State
      reads this
    {
      State(m_workqueue, m_max_requests, m_queuestat, unposted, workers, connList, m_FreeConn, m_CurConn,
            reserve, accepted, dispatched)
    }

    /** connection_pool::init and the threads: `results` is what mysql_real_connect
        returns; the first NULL ends the program. */
    constructor (threads: nat, max_requests: nat, maxConn: nat, results: seq<Option<Conn>>)
      requires threads > 0 && max_requests > 0 && |results| == maxConn
      ensures m_max_requests == max_requests
      ensures (forall i :: 0 <= i < maxConn ==> results[i].Some?) ==>
                && Now() == Init(threads, max_requests,
                                seq(maxConn, i requires 0 <= i < maxConn && results[i].Some? => results[i].value))
                && m_MaxConn == m_FreeConn == reserve == |connList| == maxConn && m_CurConn == 0
                && forall i :: 0 <= i < maxConn ==> connList[i] == results[i].value
    {
      m_max_requests := max_requests;
      m_workqueue, m_queuestat := [], 0;
      connList, m_FreeConn, m_CurConn := [], 0, 0;
      m_MaxConn, reserve := 0, 0;
      unposted, workers, accepted, dispatched := 0, seq(threads, _ => AtWait), [], [];
      new;
      var i := 0;
      while i < maxConn && results[i].Some?
        invariant 0 <= i <= maxConn && |connList| == i && m_FreeConn == i
        invariant forall k :: 0 <= k < i ==> results[k].Some? && connList[k] == results[k].value
        invariant m_workqueue == [] && m_queuestat == 0 && m_CurConn == 0 && unposted == 0
        invariant workers == seq(threads, _ => AtWait) && accepted == [] && dispatched == []
      {
        connList := connList + [results[i].value];
        m_FreeConn := m_FreeConn + 1;
        i := i + 1;
      }
      reserve := |connList|;
      m_MaxConn := m_FreeConn;
    }

    /** append and append_p: up to the unlock, then m_queuestat.post, if no other thread comes
        in between. */
    method append(request: Request) returns (ok: bool)
      modifies this
      ensures ok <==> |old(m_workqueue)| < m_max_requests
      ensures var s := Step(old(Now()), Append(request));
              if ok then Enabled(s, Post) && Now() == Step(s, Post) else Now() == s == old(Now())
      ensures m_workqueue == old(m_workqueue) + (if ok then [request] else [])
      ensures m_queuestat == old(m_queuestat) + if ok then 1 else 0
      ensures m_MaxConn == old(m_MaxConn)
    {
      if |m_workqueue| >= m_max_requests {
        return false;
      }
      m_workqueue := m_workqueue + [request];
      accepted := accepted + [request];
      m_queuestat := m_queuestat + 1;
      return true;
    }

    /** m_queuestat.wait; `interrupted` when sem_wait returns an error. */
    method wait(ghost w: nat, interrupted: bool)
      requires Enabled(Now(), if interrupted then Interrupted(w) else Wait(w))
      modifies this
      ensures Now() == Step(old(Now()), if interrupted then Interrupted(w) else Wait(w))
      ensures m_queuestat == old(m_queuestat) - if interrupted then 0 else 1
      ensures m_MaxConn == old(m_MaxConn)
    {
      if !interrupted {
        m_queuestat := m_queuestat - 1;
      }
      workers := workers[w := Claimed];
    }

    /** The locked part of run. */
    method take(ghost w: nat) returns (request: Option<Request>)
      requires Enabled(Now(), Take(w))
      modifies this
      ensures Now() == Step(old(Now()), Take(w)) && m_MaxConn == old(m_MaxConn)
      ensures if old(m_workqueue) == [] then request == None && m_workqueue == []
              else request.Some? && old(m_workqueue) == [request.value] + m_workqueue
    {
      if m_workqueue == [] {
        workers := workers[w := AtWait];
        return None;
      }
      request := Some(m_workqueue[0]);
      m_workqueue := m_workqueue[1..];
      dispatched := dispatched + [request.value];
      workers := workers[w := Checking(request.value)];
    }

    /** GetConnection: the unlocked size test ... */
    method check(ghost w: nat) returns (empty: bool)
      requires Enabled(Now(), Check(w))
      modifies this`workers
      ensures Now() == Step(old(Now()), Check(w)) && (empty <==> connList == [])
    {
      empty := 0 == |connList|;
      workers := workers[w := if empty then Bare(workers[w].request) else Waiting(workers[w].request)];
    }

    /** ... reserve.wait ... */
    method reserve_wait(ghost w: nat)
      requires Enabled(Now(), Reserve(w))
      modifies this`workers, this`reserve
      ensures Now() == Step(old(Now()), Reserve(w)) && reserve == old(reserve) - 1
    {
      reserve := reserve - 1;
      workers := workers[w := Granted(workers[w].request)];
    }

    /** ... and the locked part. */
    method pop(ghost w: nat) returns (con: Conn)
      requires Enabled(Now(), Pop(w)) && connList != []
      modifies this
      ensures Now() == Step(old(Now()), Pop(w)) && m_MaxConn == old(m_MaxConn)
      ensures old(connList) == [con] + connList
      ensures m_FreeConn == old(m_FreeConn) - 1 && m_CurConn == old(m_CurConn) + 1
    {
      con := connList[0];
      connList := connList[1..];
      m_FreeConn := m_FreeConn - 1;
      m_CurConn := m_CurConn + 1;
      workers := workers[w := Using(workers[w].request, con)];
    }

    /** The locked part of ReleaseConnection. */
    method put_back(con: Conn, ghost w: nat)
      requires Enabled(Now(), PutBack(w)) && workers[w].conn == con
      modifies this
      ensures Now() == Step(old(Now()), PutBack(w)) && m_MaxConn == old(m_MaxConn)
      ensures connList == old(connList) + [con]
      ensures m_FreeConn == old(m_FreeConn) + 1 && m_CurConn == old(m_CurConn) - 1
    {
      connList := connList + [con];
      m_FreeConn := m_FreeConn + 1;
      m_CurConn := m_CurConn - 1;
      workers := workers[w := Returned];
    }

    /** Its reserve.post. */
    method reserve_post(ghost w: nat)
      requires Enabled(Now(), Release(w))
      modifies this`workers, this`reserve
      ensures Now() == Step(old(Now()), Release(w)) && reserve == old(reserve) + 1
    {
      reserve := reserve + 1;
      workers := workers[w := AtWait];
    }

    /** connectionRAII's constructor, with no other thread in between: NULL on an empty
        list, and a wait that lasts when reserve is 0. */
    method acquire(ghost w: nat, ghost created: seq<Conn>) returns (con: Option<Conn>, blocked: bool)
      requires ConnInv(Now(), created) && QueueInv(Now())
      requires w < |workers| && workers[w].Checking?
      modifies this
      ensures ConnInv(Now(), created) && QueueInv(Now())
      ensures var s := old(Now());
              if s.connList == [] then
                con == None && !blocked && Now() == s.(workers := s.workers[w := Bare(s.workers[w].request)])
              else if s.reserve == 0 then
                con == None && blocked && Now() == s.(workers := s.workers[w := Waiting(s.workers[w].request)])
              else
                con == Some(s.connList[0]) && !blocked
                && Now() == s.(workers := s.workers[w := Using(s.workers[w].request, s.connList[0])],
                               connList := s.connList[1..], freeConn := s.freeConn - 1, curConn := s.curConn + 1,
                               reserve := s.reserve - 1)
    {
      hide ConnInv, QueueInv;
      Kept(Now(), Check(w), created);
      var empty := check(w);
      if empty {
        return None, false;
      }
      if reserve == 0 {
        return None, true;
      }
      Kept(Now(), Reserve(w), created);
      reserve_wait(w);
      Kept(Now(), Pop(w), created);
      var c := pop(w);
      return Some(c), false;
    }

    /** connectionRAII's destructor, with no other thread in between. */
    method give_back(con: Conn, ghost w: nat, ghost created: seq<Conn>)
      requires ConnInv(Now(), created) && QueueInv(Now())
      requires w < |workers| && workers[w].Using? && workers[w].conn == con
      modifies this
      ensures ConnInv(Now(), created) && QueueInv(Now())
      ensures var s := old(Now());
              Now() == s.(workers := s.workers[w := AtWait], connList := s.connList + [con],
                          freeConn := s.freeConn + 1, curConn := s.curConn - 1, reserve := s.reserve + 1)
    {
      hide ConnInv, QueueInv;
      Kept(Now(), PutBack(w), created);
      put_back(con, w);
      Kept(Now(), Release(w), created);
      reserve_post(w);
    }

    /** A request taken is processed between connectionRAII's constructor and destructor. */
    method serve(ghost w: nat, ghost created: seq<Conn>) returns (end: Round)
      requires ConnInv(Now(), created) && QueueInv(Now())
      requires w < |workers| && workers[w].Checking?
      modifies this
      ensures ConnInv(Now(), created) && QueueInv(Now())
      ensures var s := old(Now());
              if s.connList == [] then end == ServedBare && Now() == Move(s, w, AtWait)
              else if s.reserve == 0 then end == NoConnection && Now() == Move(s, w, Waiting(s.workers[w].request))
              else end == Served && Now() == Move(s, w, AtWait).(connList := s.connList[1..] + [s.connList[0]])
    {
      hide ConnInv, QueueInv;
      var con, blocked := acquire(w, created);
      if blocked {
        return NoConnection;
      }
      if con.Some? {
        give_back(con.value, w, created);
        return Served;
      }
      Kept(Now(), BareDone(w), created);
      workers := workers[w := AtWait];
      return ServedBare;
    }

    /** One round of run in the proactor model that no other thread interrupts.  It waits
        for a request or a connection if there is none to be had; an empty queue behind the
        wait sends it back; and a request is served with the first connection, or without
        one when the list is empty. */
    method run_once(ghost w: nat, ghost created: seq<Conn>) returns (end: Round)
      requires ConnInv(Now(), created) && QueueInv(Now())
      requires w < |workers| && workers[w].AtWait?
      modifies this
      ensures ConnInv(Now(), created) && QueueInv(Now())
      ensures end == NoRequest <==> old(m_queuestat) == 0
      ensures end == NoRequest ==> Now() == old(Now())
      ensures end != NoRequest ==> m_queuestat == old(m_queuestat) - 1 && unposted == old(unposted)
      ensures end == Nothing <==> old(m_queuestat) > 0 && old(m_workqueue) == []
      ensures end == Nothing ==> m_workqueue == [] && connList == old(connList) && reserve == old(reserve)
      ensures end !in {NoRequest, Nothing} ==>
                && old(m_workqueue) != [] && m_workqueue == old(m_workqueue)[1..]
                && dispatched == old(dispatched) + [old(m_workqueue)[0]]
      ensures end == NoConnection ==>
                && old(reserve) == 0 && old(connList) != [] && connList == old(connList) && reserve == 0
                && workers == old(workers)[w := Waiting(old(m_workqueue)[0])]
      ensures end == ServedBare ==> connList == old(connList) == [] && reserve == old(reserve)
      ensures end == Served ==>
                && old(reserve) > 0 && old(connList) != []
                && connList == old(connList)[1..] + [old(connList)[0]] && reserve == old(reserve)
      ensures end != NoConnection ==> workers == old(workers)
      ensures m_FreeConn == old(m_FreeConn) && m_CurConn == old(m_CurConn) && accepted == old(accepted)
    {
      hide ConnInv, QueueInv;
      if m_queuestat == 0 {
        return NoRequest;
      }
      Kept(Now(), Wait(w), created);
      wait(w, false);
      Kept(Now(), Take(w), created);
      var request := take(w);
      assert workers[w := AtWait] == old(workers);
      if request.None? {
        return Nothing;
      }
      end := serve(w, created);
    }
  }

  /** How one undisturbed round of run ends. */
  datatype Round = NoRequest | Nothing | NoConnection | Served | ServedBare

  lemma Kept(s: State, e: Event, created: seq<Conn>)
    requires ConnInv(s, created) && QueueInv(s) && Enabled(s, e)
    ensures ConnInv(Step(s, e), created) && QueueInv(Step(s, e))
  {
    StepKeepsConns(s, e, created);
    StepKeepsQueue(s, e);
  }
}
