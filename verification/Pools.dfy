/** Thread pool and database connection pool together, as steps of worker threads: each
    lock-protected region, each semaphore operation and each unlocked test is a step. */
module Pools {

  type Request = int
  type Conn = int

  /** Where a worker stands in threadpool::run and in the connectionRAII it uses. */
  datatype PC =
    | AtWait                                 // before m_queuestat.wait
    | Claimed                                // behind it
    | Checking(request: Request)             // request taken, before the test of connList.size()
    | Waiting(request: Request)              // before reserve.wait
    | Granted(request: Request)              // behind it
    | Using(request: Request, conn: Conn)    // in process(), with a connection
    | Returned                               // connection put back, before reserve.post
    | Bare(request: Request)                 // in process(), GetConnection gave NULL

  datatype State = State(
    queue: seq<Request>,
    maxRequests: nat,
    stat: nat,
    unposted: nat,
    workers: seq<PC>,
    connList: seq<Conn>,
    freeConn: int,
    curConn: int,
    reserve: nat,
    accepted: seq<Request>,
    dispatched: seq<Request>)

  datatype Event =
    | Append(request: Request)   // the locked part of append or append_p
    | Post                       // a producer's m_queuestat.post
    | Wait(w: nat)
    | Interrupted(w: nat)        // sem_wait fails and its result is not looked at
    | Take(w: nat)               // the locked part of run
    | Skip(w: nat)               // a request that needs no connection is done with
    | Check(w: nat)
    | Reserve(w: nat)
    | Pop(w: nat)                // the locked part of GetConnection
    | PutBack(w: nat)            // the locked part of ReleaseConnection
    | Release(w: nat)            // its reserve.post
    | BareDone(w: nat)

  function Init(threads: nat, maxRequests: nat, created: seq<Conn>): State {
    State([], maxRequests, 0, 0, seq(threads, _ => AtWait), created, |created|, 0, |created|, [], [])
  }

  ghost predicate Enabled(s: State, e: Event) {
    match e
    case Append(_) => true
    case Post => s.unposted > 0
    case Wait(w) => w < |s.workers| && s.workers[w].AtWait? && s.stat > 0
    case Interrupted(w) => w < |s.workers| && s.workers[w].AtWait?
    case Take(w) => w < |s.workers| && s.workers[w].Claimed?
    case Skip(w) => w < |s.workers| && s.workers[w].Checking?
    case Check(w) => w < |s.workers| && s.workers[w].Checking?
    case Reserve(w) => w < |s.workers| && s.workers[w].Waiting? && s.reserve > 0
    case Pop(w) => w < |s.workers| && s.workers[w].Granted?
    case PutBack(w) => w < |s.workers| && s.workers[w].Using?
    case Release(w) => w < |s.workers| && s.workers[w].Returned?
    case BareDone(w) => w < |s.workers| && s.workers[w].Bare?
  }

  function Move(s: State, w: nat, pc: PC): State
    requires w < |s.workers|
  {
    s.(workers := s.workers[w := pc])
  }

  /** Taking the front of an empty connList is undefined; ListNeverEmptyAtPop shows
      that it does not happen. */
  function Step(s: State, e: Event): State
    requires Enabled(s, e)
  {
    match e
    case Append(r) =>
      if |s.queue| >= s.maxRequests then s
      else s.(queue := s.queue + [r], unposted := s.unposted + 1, accepted := s.accepted + [r])
    case Post => s.(stat := s.stat + 1, unposted := s.unposted - 1)
    case Wait(w) => Move(s, w, Claimed).(stat := s.stat - 1)
    case Interrupted(w) => Move(s, w, Claimed)
    case Take(w) =>
      if s.queue == [] then Move(s, w, AtWait)
      else Move(s, w, Checking(s.queue[0])).(queue := s.queue[1..], dispatched := s.dispatched + [s.queue[0]])
    case Skip(w) => Move(s, w, AtWait)
    case Check(w) =>
      Move(s, w, if s.connList == [] then Bare(s.workers[w].request) else Waiting(s.workers[w].request))
    case Reserve(w) => Move(s, w, Granted(s.workers[w].request)).(reserve := s.reserve - 1)
    case Pop(w) =>
      if s.connList == [] then s
      else Move(s, w, Using(s.workers[w].request, s.connList[0]))
           .(connList := s.connList[1..], freeConn := s.freeConn - 1, curConn := s.curConn + 1)
    case PutBack(w) =>
      Move(s, w, Returned)
      .(connList := s.connList + [s.workers[w].conn], freeConn := s.freeConn + 1, curConn := s.curConn - 1)
    case Release(w) => Move(s, w, AtWait).(reserve := s.reserve + 1)
    case BareDone(w) => Move(s, w, AtWait)
  }

  ghost predicate Run(s: State, es: seq<Event>)
    decreases |es|
  {
    es != [] ==> Enabled(s, es[0]) && Run(Step(s, es[0]), es[1..])
  }

  ghost function Reached(s: State, es: seq<Event>): State
    requires Run(s, es)
    decreases |es|
  {
    if es == [] then s else Reached(Step(s, es[0]), es[1..])
  }

  // --- counting workers ------------------------------------------------------------

  function One(b: bool): nat { if b then 1 else 0 }

  function Count(ws: seq<PC>, p: PC -> bool): (n: nat)
    ensures n <= |ws|
  {
    if ws == [] then 0 else One(p(ws[0])) + Count(ws[1..], p)
  }

  lemma {:induction false} CountMove(ws: seq<PC>, w: nat, pc: PC, p: PC -> bool)
    requires w < |ws|
    ensures Count(ws[w := pc], p) == Count(ws, p) - One(p(ws[w])) + One(p(pc))
  {
    if w > 0 {
      CountMove(ws[1..], w - 1, pc, p);
      assert ws[w := pc][1..] == ws[1..][w - 1 := pc];
    } else {
      assert ws[w := pc][1..] == ws[1..];
    }
  }

  lemma {:induction false} CountNone(ws: seq<PC>, p: PC -> bool)
    requires forall i :: 0 <= i < |ws| ==> !p(ws[i])
    ensures Count(ws, p) == 0
  {
    if ws != [] {
      CountNone(ws[1..], p);
    }
  }

  lemma {:induction false} CountOthers(ws: seq<PC>, w: nat, p: PC -> bool)
    requires w < |ws|
    ensures p(ws[w]) ==> Count(ws, p) >= 1
    ensures !p(ws[w]) ==> Count(ws, p) <= |ws| - 1
  {
    if w > 0 {
      CountOthers(ws[1..], w - 1, p);
    }
  }

  predicate IsClaimed(pc: PC) { pc.Claimed? }
  predicate IsGranted(pc: PC) { pc.Granted? }
  predicate IsUsing(pc: PC) { pc.Using? }
  predicate IsReturned(pc: PC) { pc.Returned? }

  function Holding(pc: PC): multiset<Conn> {
    if pc.Using? then multiset{pc.conn} else multiset{}
  }

  function Held(ws: seq<PC>): multiset<Conn> {
    if ws == [] then multiset{} else Holding(ws[0]) + Held(ws[1..])
  }

  lemma Shifted(a: multiset<Conn>, b: multiset<Conn>, c: multiset<Conn>, d: multiset<Conn>, e: multiset<Conn>)
    requires b + c == d + e
    ensures a + b + c == a + d + e
  {
    assert a + b + c == a + (b + c);
  }

  lemma {:induction false} HeldMove(ws: seq<PC>, w: nat, pc: PC)
    requires w < |ws|
    ensures Held(ws[w := pc]) + Holding(ws[w]) == Held(ws) + Holding(pc)
  {
    hide Holding;
    if w > 0 {
      HeldMove(ws[1..], w - 1, pc);
      assert ws[w := pc][1..] == ws[1..][w - 1 := pc];
      Shifted(Holding(ws[0]), Held(ws[1..][w - 1 := pc]), Holding(ws[w]), Held(ws[1..]), Holding(pc));
    } else {
      assert ws[w := pc][1..] == ws[1..];
    }
  }

  // --- the invariants --------------------------------------------------------------

  /** Requests are handed on in order, none is stranded. */
  ghost predicate QueueInv(s: State) {
    && s.dispatched + s.queue == s.accepted
    && |s.queue| <= s.maxRequests
    && |s.queue| <= s.stat + Count(s.workers, IsClaimed) + s.unposted
  }

  /** Free list, held connections, counters and semaphore account for each other. */
  ghost predicate ConnInv(s: State, created: seq<Conn>) {
    && multiset(s.connList) + Held(s.workers) == multiset(created)
    && s.freeConn == |s.connList| && s.curConn == Count(s.workers, IsUsing)
    && s.freeConn + s.curConn == |created|
    && s.reserve + Count(s.workers, IsGranted) + Count(s.workers, IsUsing) + Count(s.workers, IsReturned) == |created|
  }

  lemma CountsMove(ws: seq<PC>, w: nat, pc: PC)
    requires w < |ws|
    ensures var vs := ws[w := pc];
            && Count(vs, IsClaimed) == Count(ws, IsClaimed) - One(ws[w].Claimed?) + One(pc.Claimed?)
            && Count(vs, IsGranted) == Count(ws, IsGranted) - One(ws[w].Granted?) + One(pc.Granted?)
            && Count(vs, IsUsing) == Count(ws, IsUsing) - One(ws[w].Using?) + One(pc.Using?)
            && Count(vs, IsReturned) == Count(ws, IsReturned) - One(ws[w].Returned?) + One(pc.Returned?)
            && Held(vs) + Holding(ws[w]) == Held(ws) + Holding(pc)
            && (!ws[w].Using? && !pc.Using? ==> Held(vs) == Held(ws))
    ensures ws[w].Claimed? ==> Count(ws, IsClaimed) >= 1
  {
    CountMove(ws, w, pc, IsClaimed);
    CountMove(ws, w, pc, IsGranted);
    CountMove(ws, w, pc, IsUsing);
    CountMove(ws, w, pc, IsReturned);
    HeldMove(ws, w, pc);
    assert Held(ws) + multiset{} == Held(ws) && Held(ws[w := pc]) + multiset{} == Held(ws[w := pc]);
    CountOthers(ws, w, IsClaimed);
  }

  lemma InitHolds(threads: nat, maxRequests: nat, created: seq<Conn>)
    ensures QueueInv(Init(threads, maxRequests, created)) && ConnInv(Init(threads, maxRequests, created), created)
  {
    var ws := Init(threads, maxRequests, created).workers;
    CountNone(ws, IsClaimed);
    CountNone(ws, IsGranted);
    CountNone(ws, IsUsing);
    CountNone(ws, IsReturned);
    NoneHeld(ws);
  }

  lemma {:induction false} NoneHeld(ws: seq<PC>)
    requires forall i :: 0 <= i < |ws| ==> !ws[i].Using?
    ensures Held(ws) == multiset{}
  {
    if ws != [] {
      NoneHeld(ws[1..]);
    }
  }

  /** A worker moves on without touching the queue. */
  lemma MoveKeepsQueue(s: State, p: State, w: nat)
    requires QueueInv(s) && w < |s.workers| && |p.workers| == |s.workers| && p.workers == s.workers[w := p.workers[w]]
    requires p.queue == s.queue && p.dispatched == s.dispatched && p.accepted == s.accepted
    requires p.maxRequests == s.maxRequests && p.unposted == s.unposted
    requires p.stat + One(p.workers[w].Claimed?) >= s.stat + One(s.workers[w].Claimed?)
    ensures QueueInv(p)
  {
    hide Count, Held, Holding;
    CountsMove(s.workers, w, p.workers[w]);
  }

  lemma TakeKeepsQueue(s: State, w: nat)
    requires QueueInv(s) && Enabled(s, Take(w))
    ensures QueueInv(Step(s, Take(w)))
  {
    hide Count, Held, Holding;
    CountsMove(s.workers, w, Step(s, Take(w)).workers[w]);
    assert s.queue != [] ==> s.queue == [s.queue[0]] + s.queue[1..];
  }

  lemma StepKeepsQueue(s: State, e: Event)
    requires QueueInv(s) && Enabled(s, e)
    ensures QueueInv(Step(s, e))
  {
    hide Count, Held, Holding;
    match e {
      case Append(_) =>
      case Post =>
      case Take(w) => TakeKeepsQueue(s, w);
      case _ =>
        hide QueueInv;
        MoveKeepsQueue(s, Step(s, e), e.w);
    }
  }

  lemma FirstTaken(list: seq<Conn>, held: multiset<Conn>, moved: multiset<Conn>)
    requires list != [] && moved + multiset{} == held + multiset{list[0]}
    ensures multiset(list[1..]) + moved == multiset(list) + held
  {
    assert list == [list[0]] + list[1..];
    assert moved == held + multiset{list[0]};
  }

  lemma PopKeepsConns(s: State, w: nat, created: seq<Conn>)
    requires ConnInv(s, created) && Enabled(s, Pop(w))
    ensures ConnInv(Step(s, Pop(w)), created)
  {
    hide Count, Held;
    var p := Step(s, Pop(w));
    CountsMove(s.workers, w, p.workers[w]);
    if s.connList != [] {
      FirstTaken(s.connList, Held(s.workers), Held(p.workers));
    }
  }

  lemma PutBackKeepsConns(s: State, w: nat, created: seq<Conn>)
    requires ConnInv(s, created) && Enabled(s, PutBack(w))
    ensures ConnInv(Step(s, PutBack(w)), created)
  {
    hide Count, Held;
    var p := Step(s, PutBack(w));
    CountsMove(s.workers, w, p.workers[w]);
    var c := Holding(s.workers[w]);
    assert multiset(p.connList) == multiset(s.connList) + c;
    assert Held(s.workers) + multiset{} == Held(s.workers);
    assert (multiset(s.connList) + c) + Held(p.workers) == multiset(s.connList) + (Held(p.workers) + c);
  }

  /** A worker without a connection moves on; the semaphore pays for what it claims. */
  lemma MoveKeepsConns(s: State, p: State, w: nat, created: seq<Conn>)
    requires ConnInv(s, created) && w < |s.workers| && |p.workers| == |s.workers|
    requires p.workers == s.workers[w := p.workers[w]] && !s.workers[w].Using? && !p.workers[w].Using?
    requires p.connList == s.connList && p.freeConn == s.freeConn && p.curConn == s.curConn
    requires p.reserve + One(p.workers[w].Granted?) + One(p.workers[w].Returned?)
          == s.reserve + One(s.workers[w].Granted?) + One(s.workers[w].Returned?)
    ensures ConnInv(p, created)
  {
    hide Count, Held, Holding;
    CountsMove(s.workers, w, p.workers[w]);
  }

  lemma StepKeepsConns(s: State, e: Event, created: seq<Conn>)
    requires ConnInv(s, created) && Enabled(s, e)
    ensures ConnInv(Step(s, e), created)
  {
    hide Count, Held, Holding;
    match e {
      case Append(_) =>
      case Post =>
      case Pop(w) => PopKeepsConns(s, w, created);
      case PutBack(w) => PutBackKeepsConns(s, w, created);
      case _ =>
        hide ConnInv;
        MoveKeepsConns(s, Step(s, e), e.w, created);
    }
  }

  lemma WorkersStay(s: State, e: Event)
    requires Enabled(s, e)
    ensures |Step(s, e).workers| == |s.workers|
  {
  }

  lemma {:induction false} RunKeeps(s: State, es: seq<Event>, created: seq<Conn>)
    requires QueueInv(s) && ConnInv(s, created) && Run(s, es)
    ensures QueueInv(Reached(s, es)) && ConnInv(Reached(s, es), created)
    ensures |Reached(s, es).workers| == |s.workers|
    decreases |es|
  {
    hide QueueInv, ConnInv, Step, Enabled;
    if es != [] {
      StepKeepsQueue(s, es[0]);
      StepKeepsConns(s, es[0], created);
      WorkersStay(s, es[0]);
      RunKeeps(Step(s, es[0]), es[1..], created);
    }
  }

  // --- what follows for every interleaving --------------------------------------------

  /** Thread pool: requests are dispatched in the order accepted, the queue respects its
      limit, and a waiting request is never stranded: the semaphore is positive, a worker
      is past the wait, or a producer is about to post. */
  lemma NoRequestStranded(threads: nat, maxRequests: nat, created: seq<Conn>, es: seq<Event>)
    requires Run(Init(threads, maxRequests, created), es)
    ensures var s := Reached(Init(threads, maxRequests, created), es);
            && s.dispatched + s.queue == s.accepted && |s.queue| <= maxRequests
            && (s.queue != [] ==>
                  s.stat > 0 || s.unposted > 0 || exists w :: 0 <= w < |s.workers| && s.workers[w].Claimed?)
  {
    var i := Init(threads, maxRequests, created);
    InitHolds(threads, maxRequests, created);
    RunKeeps(i, es, created);
    LimitKept(i, es);
    var s := Reached(i, es);
    if forall w :: 0 <= w < |s.workers| ==> !s.workers[w].Claimed? {
      CountNone(s.workers, IsClaimed);
    }
  }

  lemma {:induction false} LimitKept(s: State, es: seq<Event>)
    requires Run(s, es)
    ensures Reached(s, es).maxRequests == s.maxRequests
    decreases |es|
  {
    if es != [] {
      LimitKept(Step(s, es[0]), es[1..]);
    }
  }

  ghost predicate NeverInterrupted(es: seq<Event>) {
    forall i :: 0 <= i < |es| ==> !es[i].Interrupted?
  }

  /** Without interrupted waits the account is exact. */
  ghost predicate QueueExact(s: State) {
    |s.queue| == s.stat + Count(s.workers, IsClaimed) + s.unposted
  }

  lemma StepKeepsExact(s: State, e: Event)
    requires QueueExact(s) && Enabled(s, e) && !e.Interrupted?
    ensures QueueExact(Step(s, e))
  {
    hide Count, Held, Holding;
    if !e.Append? && !e.Post? {
      CountsMove(s.workers, e.w, Step(s, e).workers[e.w]);
    }
  }

  lemma {:induction false} RunKeepsExact(s: State, es: seq<Event>)
    requires QueueExact(s) && Run(s, es) && NeverInterrupted(es)
    ensures QueueExact(Reached(s, es))
    decreases |es|
  {
    if es != [] {
      StepKeepsExact(s, es[0]);
      RunKeepsExact(Step(s, es[0]), es[1..]);
    }
  }

  /** If waits never return spuriously, a worker past the wait always finds a request:
      the empty test of run is dead. */
  lemma EmptyTestDead(threads: nat, maxRequests: nat, created: seq<Conn>, es: seq<Event>, w: nat)
    requires Run(Init(threads, maxRequests, created), es) && NeverInterrupted(es)
    requires w < threads
    ensures var s := Reached(Init(threads, maxRequests, created), es);
            |s.workers| == threads && (s.workers[w].Claimed? ==> s.queue != [])
  {
    var i := Init(threads, maxRequests, created);
    InitHolds(threads, maxRequests, created);
    CountNone(i.workers, IsClaimed);
    RunKeeps(i, es, created);
    RunKeepsExact(i, es);
    CountOthers(Reached(i, es).workers, w, IsClaimed);
  }

  /** Connection pool: free list and held connections are together the created ones, and
      the counters never go below zero or out of balance. */
  lemma ConnectionsConserved(threads: nat, maxRequests: nat, created: seq<Conn>, es: seq<Event>)
    requires Run(Init(threads, maxRequests, created), es)
    ensures var s := Reached(Init(threads, maxRequests, created), es);
            && multiset(s.connList) + Held(s.workers) == multiset(created)
            && s.freeConn >= 0 && s.curConn >= 0 && s.freeConn + s.curConn == |created|
  {
    InitHolds(threads, maxRequests, created);
    RunKeeps(Init(threads, maxRequests, created), es, created);
  }

  lemma {:induction false} HeldBy(ws: seq<PC>, w: nat)
    requires w < |ws| && ws[w].Using?
    ensures Held(ws)[ws[w].conn] >= 1
  {
    if w > 0 {
      HeldBy(ws[1..], w - 1);
    }
  }

  lemma {:induction false} HeldByTwo(ws: seq<PC>, v: nat, w: nat)
    requires v < w < |ws| && ws[v].Using? && ws[w].Using? && ws[v].conn == ws[w].conn
    ensures Held(ws)[ws[v].conn] >= 2
  {
    if v > 0 {
      HeldByTwo(ws[1..], v - 1, w - 1);
    } else {
      HeldBy(ws[1..], w - 1);
    }
  }

  lemma {:induction false} DistinctCount(created: seq<Conn>, c: Conn)
    requires forall i, j :: 0 <= i < j < |created| ==> created[i] != created[j]
    ensures multiset(created)[c] <= 1
  {
    if created != [] {
      DistinctCount(created[1..], c);
      assert created == [created[0]] + created[1..];
    }
  }

  /** No connection is used by two workers, or used while it is on the free list. */
  lemma NoConnectionShared(threads: nat, maxRequests: nat, created: seq<Conn>, es: seq<Event>, v: nat, w: nat)
    requires Run(Init(threads, maxRequests, created), es)
    requires forall i, j :: 0 <= i < j < |created| ==> created[i] != created[j]
    requires v < threads && w < threads && v != w
    ensures var s := Reached(Init(threads, maxRequests, created), es);
            |s.workers| == threads &&
            (s.workers[v].Using? ==>
               s.workers[v].conn !in s.connList && (s.workers[w].Using? ==> s.workers[v].conn != s.workers[w].conn))
  {
    var i := Init(threads, maxRequests, created);
    InitHolds(threads, maxRequests, created);
    RunKeeps(i, es, created);
    var s := Reached(i, es);
    if s.workers[v].Using? {
      DistinctCount(created, s.workers[v].conn);
      HeldBy(s.workers, v);
      assert s.workers[v].conn in s.connList ==> multiset(s.connList)[s.workers[v].conn] >= 1;
      if s.workers[w].Using? && s.workers[v].conn == s.workers[w].conn {
        HeldByTwo(s.workers, if v < w then v else w, if v < w then w else v);
      }
    }
  }

  /** A worker that has passed reserve.wait always finds a connection on the list. */
  lemma ListNeverEmptyAtPop(threads: nat, maxRequests: nat, created: seq<Conn>, es: seq<Event>, w: nat)
    requires Run(Init(threads, maxRequests, created), es) && w < threads
    ensures var s := Reached(Init(threads, maxRequests, created), es);
            |s.workers| == threads && (s.workers[w].Granted? ==> s.connList != [])
  {
    var i := Init(threads, maxRequests, created);
    InitHolds(threads, maxRequests, created);
    RunKeeps(i, es, created);
    CountOthers(Reached(i, es).workers, w, IsGranted);
  }

  // --- across both pools ------------------------------------------------------------

  /** Every worker about to test the list finds it non-empty, every worker about to wait
      for a connection does not block, and none works without one. */
  ghost predicate NoneStarved(s: State) {
    forall w :: 0 <= w < |s.workers| ==>
      && (s.workers[w].Checking? ==> s.connList != [])
      && (s.workers[w].Waiting? ==> s.reserve > 0)
      && !s.workers[w].Bare?
  }

  predicate Engaged(pc: PC) { pc.Granted? || pc.Using? || pc.Returned? }

  lemma {:induction false} EngagedCount(ws: seq<PC>)
    ensures Count(ws, Engaged) == Count(ws, IsGranted) + Count(ws, IsUsing) + Count(ws, IsReturned)
  {
    if ws != [] {
      EngagedCount(ws[1..]);
    }
  }

  /** With no more workers than connections, whoever asks is served. */
  lemma AskerServed(s: State, created: seq<Conn>, w: nat)
    requires ConnInv(s, created) && |s.workers| <= |created| && w < |s.workers| && !Engaged(s.workers[w])
    ensures s.connList != [] && s.reserve > 0
  {
    EngagedCount(s.workers);
    CountOthers(s.workers, w, Engaged);
  }

  ghost predicate NoneBare(s: State) {
    forall w :: 0 <= w < |s.workers| ==> !s.workers[w].Bare?
  }

  lemma StepBaresNone(s: State, e: Event, created: seq<Conn>)
    requires ConnInv(s, created) && |s.workers| <= |created| && Enabled(s, e) && NoneBare(s)
    ensures NoneBare(Step(s, e)) && |Step(s, e).workers| == |s.workers|
  {
    hide ConnInv;
    if e.Check? {
      AskerServed(s, created, e.w);
    }
  }

  lemma {:induction false} RunStarvesNone(s: State, es: seq<Event>, created: seq<Conn>)
    requires ConnInv(s, created) && |s.workers| <= |created| && Run(s, es) && NoneBare(s)
    ensures NoneStarved(Reached(s, es))
    decreases |es|
  {
    hide ConnInv, Step;
    if es == [] {
      forall w | 0 <= w < |s.workers| && !Engaged(s.workers[w])
        ensures s.connList != [] && s.reserve > 0
      {
        AskerServed(s, created, w);
      }
    } else {
      StepKeepsConns(s, es[0], created);
      StepBaresNone(s, es[0], created);
      RunStarvesNone(Step(s, es[0]), es[1..], created);
    }
  }

  ghost predicate Reachable(from: State, s: State) {
    exists es :: Run(from, es) && Reached(from, es) == s
  }

  lemma {:induction false} ReachedThen(from: State, es: seq<Event>, e: Event)
    requires Run(from, es) && Enabled(Reached(from, es), e)
    ensures Run(from, es + [e]) && Reached(from, es + [e]) == Step(Reached(from, es), e)
    decreases |es|
  {
    if es == [] {
      assert ([] + [e])[1..] == [];
    } else {
      assert (es + [e])[1..] == es[1..] + [e];
      ReachedThen(Step(from, es[0]), es[1..], e);
    }
  }

  lemma OneStep(from: State, s: State, e: Event) returns (p: State)
    requires Reachable(from, s) && Enabled(s, e)
    ensures p == Step(s, e) && Reachable(from, p)
  {
    var es :| Run(from, es) && Reached(from, es) == s;
    ReachedThen(from, es, e);
    p := Step(s, e);
  }

  /** The first `k` workers hold the first `k` connections, all others wait. */
  function Busy(threads: nat, maxRequests: nat, created: seq<Conn>, k: nat): State
    requires k <= threads && k <= |created|
  {
    State([], maxRequests, 0, 0,
          seq(threads, i requires 0 <= i < threads => if i < k then Using(i, created[i]) else AtWait),
          created[k..], |created| - k, k, |created| - k,
          seq(k, i => i), seq(k, i => i))
  }

  /** A request for worker `k` comes in and the worker reaches GetConnection. */
  lemma NextRequest(from: State, threads: nat, maxRequests: nat, created: seq<Conn>, k: nat) returns (s: State)
    requires k < threads && k <= |created| && maxRequests > 0
    requires Reachable(from, Busy(threads, maxRequests, created, k))
    ensures Reachable(from, s)
    ensures var b := Busy(threads, maxRequests, created, k);
            s == b.(workers := b.workers[k := Checking(k)], accepted := b.accepted + [k],
                    dispatched := b.dispatched + [k])
  {
    hide Reachable;
    var b := Busy(threads, maxRequests, created, k);
    s := OneStep(from, b, Append(k));
    s := OneStep(from, s, Post);
    s := OneStep(from, s, Wait(k));
    s := OneStep(from, s, Take(k));
    assert b.workers[k := Claimed][k := Checking(k)] == b.workers[k := Checking(k)];
  }

  lemma OneMoreBusy(from: State, threads: nat, maxRequests: nat, created: seq<Conn>, k: nat)
    requires k < threads && k < |created| && maxRequests > 0
    requires Reachable(from, Busy(threads, maxRequests, created, k))
    ensures Reachable(from, Busy(threads, maxRequests, created, k + 1))
  {
    hide Reachable;
    var s := NextRequest(from, threads, maxRequests, created, k);
    s := OneStep(from, s, Check(k));
    s := OneStep(from, s, Reserve(k));
    s := OneStep(from, s, Pop(k));
    var b := Busy(threads, maxRequests, created, k + 1);
    assert s.workers == b.workers && s.accepted == b.accepted && s.dispatched == b.dispatched;
    assert s.connList == b.connList;
  }

  lemma {:induction false} AllBusy(threads: nat, maxRequests: nat, created: seq<Conn>, k: nat)
    requires k <= threads && k <= |created| && maxRequests > 0
    ensures Reachable(Init(threads, maxRequests, created), Busy(threads, maxRequests, created, k))
  {
    var i := Init(threads, maxRequests, created);
    if k == 0 {
      assert Busy(threads, maxRequests, created, 0) == i;
      assert Run(i, []) && Reached(i, []) == i;
    } else {
      AllBusy(threads, maxRequests, created, k - 1);
      OneMoreBusy(i, threads, maxRequests, created, k - 1);
    }
  }

  /** Over every interleaving no worker is ever left without a connection, or made to
      wait for one, iff there are no more threads than connections. */
  lemma ThreadsWithinConnectionsExactly(threads: nat, maxRequests: nat, created: seq<Conn>)
    requires threads > 0 && maxRequests > 0
    ensures (forall es | Run(Init(threads, maxRequests, created), es) ::
               NoneStarved(Reached(Init(threads, maxRequests, created), es)))
            <==> threads <= |created|
  {
    var i := Init(threads, maxRequests, created);
    InitHolds(threads, maxRequests, created);
    if threads <= |created| {
      forall es | Run(i, es)
        ensures NoneStarved(Reached(i, es))
      {
        RunStarvesNone(i, es, created);
      }
    } else {
      var k := |created|;
      AllBusy(threads, maxRequests, created, k);
      var s := NextRequest(i, threads, maxRequests, created, k);
      assert s.workers[k].Checking? && s.connList == [];
      var es :| Run(i, es) && Reached(i, es) == s;
      assert !NoneStarved(Reached(i, es));
    }
  }
}
