/** The reactor handshake: the main thread appends a request, spins until a worker sets
    improv, looks at timer_flag, and clears improv. */
module Reactor {

  /** The main thread in dealwithread or dealwithwrite. */
  datatype Main =
    | Idle
    | Pushed(fd: int)      // append has unlocked, before its post
    | Spinning(fd: int)
    | Seen(fd: int)        // improv was 1, timer_flag not looked at yet
    | Looked(fd: int)      // timer_flag dealt with, improv not cleared yet

  datatype Worker =
    | AtWait
    | Claimed
    | Working(fd: int)     // in read_once or write, before improv = 1
    | Flagging(fd: int)    // that failed: improv is set, timer_flag is not yet
    | Processing(fd: int)  // read_once was fine: improv is set, in process()

  /** How read_once or write ended; after KeptAlive, write has called init(). */
  datatype Result = ReadFine | WriteFine | KeptAlive | Failed

  datatype System = System(
    main: Main,
    queue: seq<int>,
    maxRequests: nat,
    stat: nat,
    workers: seq<Worker>,
    improv: set<int>,
    timerFlag: set<int>,
    appended: nat,
    completed: nat,
    consumed: nat,
    failed: seq<int>,
    dealt: seq<int>)

  datatype Act =
    | Append(fd: int)
    | Post
    | See
    | Look
    | Clear
    | Wait(w: nat)
    | Interrupted(w: nat)
    | Take(w: nat)
    | Finish(w: nat, result: Result)
    | Flag(w: nat)
    | Done(w: nat)

  function Init(threads: nat, maxRequests: nat): System {
    System(Idle, [], maxRequests, 0, seq(threads, _ => AtWait), {}, {}, 0, 0, 0, [], [])
  }

  ghost predicate Enabled(s: System, a: Act) {
    match a
    case Append(_) => s.main.Idle?
    case Post => s.main.Pushed?
    case See => s.main.Spinning? && s.main.fd in s.improv
    case Look => s.main.Seen?
    case Clear => s.main.Looked?
    case Wait(w) => w < |s.workers| && s.workers[w].AtWait? && s.stat > 0
    case Interrupted(w) => w < |s.workers| && s.workers[w].AtWait?
    case Take(w) => w < |s.workers| && s.workers[w].Claimed?
    case Finish(w, _) => w < |s.workers| && s.workers[w].Working?
    case Flag(w) => w < |s.workers| && s.workers[w].Flagging?
    case Done(w) => w < |s.workers| && s.workers[w].Processing?
  }

  function After(result: Result, fd: int): Worker {
    match result
    case ReadFine => Processing(fd)
    case WriteFine => AtWait
    case KeptAlive => AtWait
    case Failed => Flagging(fd)
  }

  /** A refused append still leaves the main thread spinning. */
  function Step(s: System, a: Act): System
    requires Enabled(s, a)
  {
    match a
    case Append(fd) =>
      if |s.queue| >= s.maxRequests then s.(main := Spinning(fd))
      else s.(main := Pushed(fd), queue := s.queue + [fd], appended := s.appended + 1)
    case Post => s.(main := Spinning(s.main.fd), stat := s.stat + 1)
    case See => s.(main := Seen(s.main.fd))
    case Look =>
      var fd := s.main.fd;
      if fd in s.timerFlag then
        s.(main := Looked(fd), timerFlag := s.timerFlag - {fd}, dealt := s.dealt + [fd])
      else s.(main := Looked(fd))
    case Clear => s.(main := Idle, improv := s.improv - {s.main.fd}, consumed := s.consumed + 1)
    case Wait(w) => s.(workers := s.workers[w := Claimed], stat := s.stat - 1)
    case Interrupted(w) => s.(workers := s.workers[w := Claimed])
    case Take(w) =>
      if s.queue == [] then s.(workers := s.workers[w := AtWait])
      else s.(workers := s.workers[w := Working(s.queue[0])], queue := s.queue[1..])
    case Finish(w, result) =>
      var fd := s.workers[w].fd;
      var p := s.(workers := s.workers[w := After(result, fd)],
                  improv := s.improv + {fd},
                  completed := s.completed + 1);
      if result.Failed? then p.(failed := s.failed + [fd])
      else if result.KeptAlive? then p.(timerFlag := s.timerFlag - {fd})
      else p
    case Flag(w) =>
      s.(workers := s.workers[w := AtWait], timerFlag := s.timerFlag + {s.workers[w].fd})
    case Done(w) => s.(workers := s.workers[w := AtWait])
  }

  ghost predicate Run(s: System, acts: seq<Act>)
    decreases |acts|
  {
    acts != [] ==> Enabled(s, acts[0]) && Run(Step(s, acts[0]), acts[1..])
  }

  ghost function Reached(s: System, acts: seq<Act>): System
    requires Run(s, acts)
    decreases |acts|
  {
    if acts == [] then s else Reached(Step(s, acts[0]), acts[1..])
  }

  // --- one request, one completion -----------------------------------------------------

  ghost predicate NobodyWorks(s: System) {
    forall w :: 0 <= w < |s.workers| ==> !s.workers[w].Working?
  }

  ghost predicate OnlyWorks(s: System, v: nat) {
    v < |s.workers| && s.workers[v].Working? &&
    forall w :: 0 <= w < |s.workers| && w != v ==> !s.workers[w].Working?
  }

  /** The request of the main thread is in exactly one place: the queue, a worker's
      hands, or completed with improv set. */
  ghost predicate InQueue(s: System, fd: int) {
    s.queue == [fd] && NobodyWorks(s) && s.improv == {} && s.completed == s.consumed
  }

  ghost predicate InHand(s: System, fd: int) {
    s.queue == [] && s.improv == {} && s.completed == s.consumed &&
    exists v: nat :: OnlyWorks(s, v) && s.workers[v].fd == fd
  }

  ghost predicate Complete(s: System, fd: int) {
    s.queue == [] && NobodyWorks(s) && s.improv == {fd} && s.completed == s.consumed + 1
  }

  ghost predicate Handshake(s: System) {
    && s.maxRequests > 0
    && match s.main
       case Idle =>
         s.queue == [] && NobodyWorks(s) && s.improv == {} && s.appended == s.completed == s.consumed
       case Pushed(fd) =>
         s.appended == s.consumed + 1 && (InQueue(s, fd) || InHand(s, fd) || Complete(s, fd))
       case Spinning(fd) =>
         s.appended == s.consumed + 1 && (InQueue(s, fd) || InHand(s, fd) || Complete(s, fd))
       case Seen(fd) => s.appended == s.consumed + 1 && Complete(s, fd)
       case Looked(fd) => s.appended == s.consumed + 1 && Complete(s, fd)
  }

  lemma MainKeepsHandshake(s: System, a: Act)
    requires Handshake(s) && Enabled(s, a) && (a.Append? || a.Post? || a.See? || a.Look? || a.Clear?)
    ensures Handshake(Step(s, a))
  {
    if a.Append? {
      assert InQueue(Step(s, a), a.fd);
    }
  }

  /** A worker that neither had the request nor takes it moves on. */
  lemma MoveKeepsHandshake(s: System, p: System, w: nat)
    requires Handshake(s) && w < |s.workers| == |p.workers| && p.workers == s.workers[w := p.workers[w]]
    requires !s.workers[w].Working? && !p.workers[w].Working?
    requires p.main == s.main && p.queue == s.queue && p.maxRequests == s.maxRequests && p.improv == s.improv
    requires p.appended == s.appended && p.completed == s.completed && p.consumed == s.consumed
    ensures Handshake(p)
  {
    StillOnly(s, p, w);
    hide NobodyWorks, OnlyWorks;
  }

  lemma TakeKeepsHandshake(s: System, w: nat)
    requires Handshake(s) && Enabled(s, Take(w)) && s.queue != []
    ensures Handshake(Step(s, Take(w)))
  {
    assert OnlyWorks(Step(s, Take(w)), w);
  }

  lemma FinishKeepsHandshake(s: System, a: Act)
    requires Handshake(s) && Enabled(s, a) && a.Finish?
    ensures Handshake(Step(s, a))
  {
    assert Complete(Step(s, a), s.workers[a.w].fd);
  }

  lemma StepKeepsHandshake(s: System, a: Act)
    requires Handshake(s) && Enabled(s, a)
    ensures Handshake(Step(s, a))
  {
    hide Handshake;
    match a {
      case Finish(_, _) => FinishKeepsHandshake(s, a);
      case Take(w) =>
        if s.queue != [] {
          TakeKeepsHandshake(s, w);
        } else {
          MoveKeepsHandshake(s, Step(s, a), w);
        }
      case Wait(w) => MoveKeepsHandshake(s, Step(s, a), w);
      case Interrupted(w) => MoveKeepsHandshake(s, Step(s, a), w);
      case Flag(w) => MoveKeepsHandshake(s, Step(s, a), w);
      case Done(w) => MoveKeepsHandshake(s, Step(s, a), w);
      case _ => MainKeepsHandshake(s, a);
    }
  }

  /** Other moves of a worker do not touch the one that works. */
  lemma StillOnly(s: System, p: System, w: nat)
    requires w < |s.workers| && |p.workers| == |s.workers| && !s.workers[w].Working? && !p.workers[w].Working?
    requires forall i :: 0 <= i < |s.workers| && i != w ==> p.workers[i] == s.workers[i]
    ensures NobodyWorks(s) ==> NobodyWorks(p)
    ensures forall v: nat :: OnlyWorks(s, v) ==> OnlyWorks(p, v) && p.workers[v] == s.workers[v]
  {
  }

  lemma {:induction false} RunKeepsHandshake(s: System, acts: seq<Act>)
    requires Handshake(s) && Run(s, acts)
    ensures Handshake(Reached(s, acts))
    decreases |acts|
  {
    if acts != [] {
      StepKeepsHandshake(s, acts[0]);
      RunKeepsHandshake(Step(s, acts[0]), acts[1..]);
    }
  }

  /** Over every interleaving: the queue never holds more than one request, each
      completion is consumed exactly once, and when the main thread appends, improv is
      clear everywhere and the append is not refused. */
  lemma HandshakeHolds(threads: nat, maxRequests: nat, acts: seq<Act>)
    requires maxRequests > 0 && Run(Init(threads, maxRequests), acts)
    ensures var s := Reached(Init(threads, maxRequests), acts);
            && |s.queue| <= 1
            && s.consumed <= s.completed <= s.appended <= s.consumed + 1
            && (s.main.Idle? ==> s.improv == {} && s.queue == [] && s.completed == s.consumed == s.appended)
            && (forall fd :: s.main.Idle? ==> Step(s, Append(fd)).main == Pushed(fd))
  {
    RunKeepsHandshake(Init(threads, maxRequests), acts);
    LimitKept(Init(threads, maxRequests), acts);
  }

  lemma {:induction false} LimitKept(s: System, acts: seq<Act>)
    requires Run(s, acts)
    ensures Reached(s, acts).maxRequests == s.maxRequests
    decreases |acts|
  {
    if acts != [] {
      LimitKept(Step(s, acts[0]), acts[1..]);
    }
  }

  /** While the main thread spins on a request that is still queued, its post is there to be
      taken by a wait, or a worker behind the wait is about to look at the queue. */
  ghost predicate Fetchable(s: System) {
    s.main.Spinning? && s.queue != [] ==> s.stat > 0 || exists w :: 0 <= w < |s.workers| && s.workers[w].Claimed?
  }

  lemma StepKeepsFetchable(s: System, a: Act)
    requires Handshake(s) && Enabled(s, a) && Fetchable(s)
    ensures Fetchable(Step(s, a))
  {
    var p := Step(s, a);
    match a {
      case Wait(w) => assert p.workers[w].Claimed?;
      case Interrupted(w) => assert p.workers[w].Claimed?;
      case Flag(w) => ClaimedStays(s, p, w);
      case Done(w) => ClaimedStays(s, p, w);
      case _ =>
    }
  }

  lemma ClaimedStays(s: System, p: System, w: nat)
    requires w < |s.workers| && !s.workers[w].Claimed? && p.workers == s.workers[w := AtWait]
    ensures (exists v :: 0 <= v < |s.workers| && s.workers[v].Claimed?) ==>
              exists v :: 0 <= v < |p.workers| && p.workers[v].Claimed?
  {
    forall v | 0 <= v < |s.workers| && s.workers[v].Claimed?
      ensures p.workers[v].Claimed?
    {
    }
  }

  lemma {:induction false} RunKeepsFetchable(s: System, acts: seq<Act>)
    requires Handshake(s) && Run(s, acts) && Fetchable(s)
    ensures Fetchable(Reached(s, acts))
    decreases |acts|
  {
    hide Handshake, Fetchable, Step, Enabled;
    if acts != [] {
      StepKeepsHandshake(s, acts[0]);
      StepKeepsFetchable(s, acts[0]);
      RunKeepsFetchable(Step(s, acts[0]), acts[1..]);
    }
  }

  /** Over every interleaving the main thread never spins on a request nobody will fetch. */
  lemma SpinsOnFetchable(threads: nat, maxRequests: nat, acts: seq<Act>)
    requires maxRequests > 0 && Run(Init(threads, maxRequests), acts)
    ensures Fetchable(Reached(Init(threads, maxRequests), acts))
  {
    RunKeepsFetchable(Init(threads, maxRequests), acts);
  }

  // --- read_once and process ---------------------------------------------------------

  /** How many reads of `fd` succeeded. */
  function FineReads(s: System, acts: seq<Act>, fd: int): nat
    requires Run(s, acts)
    decreases |acts|
  {
    if acts == [] then 0
    else (match acts[0]
          case Finish(w, ReadFine) => if s.workers[w].fd == fd then 1 else 0
          case _ => 0) + FineReads(Step(s, acts[0]), acts[1..], fd)
  }

  /** How many calls of process() for `fd` have come to an end. */
  function Processed(s: System, acts: seq<Act>, fd: int): nat
    requires Run(s, acts)
    decreases |acts|
  {
    if acts == [] then 0
    else (match acts[0]
          case Done(w) => if s.workers[w].fd == fd then 1 else 0
          case _ => 0) + Processed(Step(s, acts[0]), acts[1..], fd)
  }

  /** How many workers are in process() for `fd`. */
  function InProcess(workers: seq<Worker>, fd: int): nat {
    if workers == [] then 0
    else (if workers[0] == Processing(fd) then 1 else 0) + InProcess(workers[1..], fd)
  }

  lemma {:induction false} InProcessUpdate(workers: seq<Worker>, w: nat, x: Worker, fd: int)
    requires w < |workers|
    ensures InProcess(workers[w := x], fd) - (if x == Processing(fd) then 1 else 0)
            == InProcess(workers, fd) - if workers[w] == Processing(fd) then 1 else 0
  {
    if w == 0 {
      assert workers[0 := x][1..] == workers[1..];
    } else {
      assert workers[w := x][1..] == workers[1..][w - 1 := x];
      InProcessUpdate(workers[1..], w - 1, x, fd);
    }
  }

  lemma StepProcesses(s: System, a: Act, fd: int)
    requires Enabled(s, a)
    ensures InProcess(Step(s, a).workers, fd)
            == InProcess(s.workers, fd)
               + (match a
                  case Finish(w, ReadFine) => if s.workers[w].fd == fd then 1 else 0
                  case Done(w) => if s.workers[w].fd == fd then -1 else 0
                  case _ => 0)
  {
    hide InProcess;
    match a {
      case Wait(w) => InProcessUpdate(s.workers, w, Claimed, fd);
      case Interrupted(w) => InProcessUpdate(s.workers, w, Claimed, fd);
      case Take(w) => InProcessUpdate(s.workers, w, Step(s, a).workers[w], fd);
      case Finish(w, result) => InProcessUpdate(s.workers, w, After(result, s.workers[w].fd), fd);
      case Flag(w) => InProcessUpdate(s.workers, w, AtWait, fd);
      case Done(w) => InProcessUpdate(s.workers, w, AtWait, fd);
      case _ =>
    }
  }

  lemma {:induction false} ProcessesAlong(s: System, acts: seq<Act>, fd: int)
    requires Run(s, acts)
    ensures InProcess(s.workers, fd) + FineReads(s, acts, fd)
            == Processed(s, acts, fd) + InProcess(Reached(s, acts).workers, fd)
    decreases |acts|
  {
    hide InProcess, Step, Enabled;
    if acts != [] {
      StepProcesses(s, acts[0], fd);
      ProcessesAlong(Step(s, acts[0]), acts[1..], fd);
    }
  }

  lemma {:induction false} NoneInProcess(n: nat, fd: int)
    ensures InProcess(seq(n, _ => AtWait), fd) == 0
  {
    if n > 0 {
      assert seq(n, _ => AtWait)[1..] == seq(n - 1, _ => AtWait);
      NoneInProcess(n - 1, fd);
    }
  }

  /** Over every interleaving, each successful read, and nothing else, leads its worker on
      to process() for that connection. */
  lemma FineReadsAreProcessed(threads: nat, maxRequests: nat, acts: seq<Act>, fd: int)
    requires Run(Init(threads, maxRequests), acts)
    ensures var i := Init(threads, maxRequests);
            FineReads(i, acts, fd) == Processed(i, acts, fd) + InProcess(Reached(i, acts).workers, fd)
  {
    NoneInProcess(threads, fd);
    ProcessesAlong(Init(threads, maxRequests), acts, fd);
  }

  // --- timer_flag ----------------------------------------------------------------------

  ghost predicate NobodyFlags(s: System) {
    forall w :: 0 <= w < |s.workers| ==> !s.workers[w].Flagging?
  }

  ghost predicate OnlyFlags(s: System, v: nat, fd: int) {
    v < |s.workers| && s.workers[v] == Flagging(fd) &&
    forall w :: 0 <= w < |s.workers| && w != v ==> !s.workers[w].Flagging?
  }

  /** No look of the main thread falls between a worker's improv = 1 and its
      timer_flag = 1. */
  ghost predicate Prompt(s: System, acts: seq<Act>)
    requires Run(s, acts)
    decreases |acts|
  {
    acts != [] ==> (acts[0].Look? ==> NobodyFlags(s)) && Prompt(Step(s, acts[0]), acts[1..])
  }

  ghost predicate Settled(s: System) {
    NobodyFlags(s) && s.timerFlag == {} && s.dealt == s.failed
  }

  ghost predicate Owed(s: System) {
    && (s.main.Pushed? || s.main.Spinning? || s.main.Seen?)
    && Complete(s, s.main.fd)
    && s.failed == s.dealt + [s.main.fd]
    && ((NobodyFlags(s) && s.timerFlag == {s.main.fd})
        || (s.timerFlag == {} && exists v: nat :: OnlyFlags(s, v, s.main.fd)))
  }

  lemma MainKeepsFlags(s: System, a: Act)
    requires Handshake(s) && Enabled(s, a) && (Settled(s) || Owed(s))
    requires a.Append? || a.Post? || a.See? || a.Clear? || (a.Look? && NobodyFlags(s))
    ensures Settled(Step(s, a)) || Owed(Step(s, a))
  {
    StillOwed(s, Step(s, a));
  }

  /** A worker that had no timer_flag to set, and has none, moves on. */
  lemma MoveKeepsFlags(s: System, p: System, w: nat)
    requires Handshake(p) && (Settled(s) || Owed(s))
    requires w < |s.workers| == |p.workers| && p.workers == s.workers[w := p.workers[w]]
    requires !s.workers[w].Flagging? && !p.workers[w].Flagging?
    requires p.main == s.main && p.improv == s.improv && p.timerFlag == s.timerFlag
    requires p.dealt == s.dealt && p.failed == s.failed
    ensures Settled(p) || Owed(p)
  {
    StillFlags(s, p, w);
    hide NobodyFlags, OnlyFlags, NobodyWorks;
  }

  lemma FlagKeepsFlags(s: System, w: nat)
    requires Handshake(s) && Enabled(s, Flag(w)) && (Settled(s) || Owed(s))
    requires Handshake(Step(s, Flag(w)))
    ensures Settled(Step(s, Flag(w))) || Owed(Step(s, Flag(w)))
  {
    assert Owed(s);
    assert OnlyFlags(s, w, s.main.fd);
    assert NobodyFlags(Step(s, Flag(w)));
    hide NobodyWorks;
  }

  lemma FinishKeepsFlags(s: System, a: Act)
    requires Handshake(s) && Enabled(s, a) && a.Finish? && (Settled(s) || Owed(s))
    ensures Settled(Step(s, a)) || Owed(Step(s, a))
  {
    var p := Step(s, a);
    assert Settled(s);
    assert Complete(p, s.workers[a.w].fd);
    if a.result.Failed? {
      assert OnlyFlags(p, a.w, s.workers[a.w].fd);
    } else {
      assert NobodyFlags(p);
    }
  }

  lemma StepKeepsFlags(s: System, a: Act)
    requires Handshake(s) && Enabled(s, a) && (Settled(s) || Owed(s))
    requires a.Look? ==> NobodyFlags(s)
    ensures Settled(Step(s, a)) || Owed(Step(s, a))
  {
    hide Handshake, Settled, Owed;
    StepKeepsHandshake(s, a);
    match a {
      case Flag(w) => FlagKeepsFlags(s, w);
      case Finish(_, _) => FinishKeepsFlags(s, a);
      case Wait(w) => MoveKeepsFlags(s, Step(s, a), w);
      case Interrupted(w) => MoveKeepsFlags(s, Step(s, a), w);
      case Take(w) => MoveKeepsFlags(s, Step(s, a), w);
      case Done(w) => MoveKeepsFlags(s, Step(s, a), w);
      case _ => MainKeepsFlags(s, a);
    }
  }

  lemma StillOwed(s: System, p: System)
    requires p.workers == s.workers
    ensures forall v: nat, fd :: OnlyFlags(s, v, fd) ==> OnlyFlags(p, v, fd)
  {
  }

  lemma StillFlags(s: System, p: System, w: nat)
    requires w < |s.workers| && |p.workers| == |s.workers| && !s.workers[w].Flagging? && !p.workers[w].Flagging?
    requires forall i :: 0 <= i < |s.workers| && i != w ==> p.workers[i] == s.workers[i]
    ensures NobodyFlags(s) ==> NobodyFlags(p)
    ensures forall v: nat, fd :: OnlyFlags(s, v, fd) ==> OnlyFlags(p, v, fd)
  {
  }

  lemma {:induction false} PromptKeepsFlags(s: System, acts: seq<Act>)
    requires Handshake(s) && Run(s, acts) && Prompt(s, acts) && (Settled(s) || Owed(s))
    ensures Handshake(Reached(s, acts)) && (Settled(Reached(s, acts)) || Owed(Reached(s, acts)))
    decreases |acts|
  {
    if acts != [] {
      StepKeepsHandshake(s, acts[0]);
      StepKeepsFlags(s, acts[0]);
      PromptKeepsFlags(Step(s, acts[0]), acts[1..]);
    }
  }

  /** If no look so far fell between the two writes, the connections dealt with are
      those whose read or write failed, in order; and the next look keeps it so exactly
      when it does not fall there either. */
  lemma FailuresDealtExactly(threads: nat, maxRequests: nat, acts: seq<Act>)
    requires maxRequests > 0 && Run(Init(threads, maxRequests), acts) && Prompt(Init(threads, maxRequests), acts)
    ensures var s := Reached(Init(threads, maxRequests), acts);
            && (s.main.Idle? ==> s.dealt == s.failed && s.timerFlag == {})
            && (Enabled(s, Look) ==> (Step(s, Look).dealt == s.failed <==> NobodyFlags(s)))
  {
    PromptKeepsFlags(Init(threads, maxRequests), acts);
  }

  /** Whenever the main thread is idle, it has dealt with all failures, in order. */
  ghost predicate DealtWhenIdle(s: System, acts: seq<Act>)
    requires Run(s, acts)
    decreases |acts|
  {
    && (s.main.Idle? ==> s.dealt == s.failed)
    && (acts != [] ==> DealtWhenIdle(Step(s, acts[0]), acts[1..]))
  }

  lemma {:induction false} PromptIsDealt(s: System, acts: seq<Act>)
    requires Handshake(s) && Run(s, acts) && Prompt(s, acts) && (Settled(s) || Owed(s))
    ensures DealtWhenIdle(s, acts)
    decreases |acts|
  {
    hide Handshake, Step;
    if acts != [] {
      StepKeepsHandshake(s, acts[0]);
      StepKeepsFlags(s, acts[0]);
      PromptIsDealt(Step(s, acts[0]), acts[1..]);
    }
  }

  /** A look that falls between the two writes misses the failure. */
  lemma LateLookMisses(s: System)
    requires Handshake(s) && Enabled(s, Look) && (Settled(s) || Owed(s)) && !NobodyFlags(s)
    ensures var p := Step(s, Look); p.main.Looked? && p.dealt != p.failed
  {
  }

  lemma BehindLook(s: System, a: Act)
    requires Handshake(s) && Enabled(s, a) && s.main.Looked?
    ensures var p := Step(s, a);
            p.dealt == s.dealt && p.failed == s.failed && p.main == if a.Clear? then Idle else s.main
  {
  }

  /** The next idle point shows it. */
  lemma {:induction false} MissedShows(s: System, acts: seq<Act>)
    requires Handshake(s) && Run(s, acts) && s.main.Looked? && s.dealt != s.failed && Reached(s, acts).main.Idle?
    ensures !DealtWhenIdle(s, acts)
    decreases |acts|
  {
    hide Handshake, Step, Enabled;
    if acts != [] {
      StepKeepsHandshake(s, acts[0]);
      BehindLook(s, acts[0]);
      if !acts[0].Clear? {
        MissedShows(Step(s, acts[0]), acts[1..]);
      }
    }
  }

  lemma {:induction false} DealtIsPrompt(s: System, acts: seq<Act>)
    requires Handshake(s) && Run(s, acts) && Reached(s, acts).main.Idle? && (Settled(s) || Owed(s))
    requires DealtWhenIdle(s, acts)
    ensures Prompt(s, acts)
    decreases |acts|
  {
    hide Handshake, Step, Settled, Owed, NobodyFlags, Enabled;
    if acts != [] {
      StepKeepsHandshake(s, acts[0]);
      if acts[0].Look? && !NobodyFlags(s) {
        LateLookMisses(s);
        MissedShows(Step(s, acts[0]), acts[1..]);
      } else {
        StepKeepsFlags(s, acts[0]);
        DealtIsPrompt(Step(s, acts[0]), acts[1..]);
      }
    }
  }

  /** A run that ends with the main thread idle deals with all failures by every idle point
      exactly when no look of it falls between the two writes. */
  lemma DealtWhenIdleExactly(threads: nat, maxRequests: nat, acts: seq<Act>)
    requires maxRequests > 0 && Run(Init(threads, maxRequests), acts)
    requires Reached(Init(threads, maxRequests), acts).main.Idle?
    ensures DealtWhenIdle(Init(threads, maxRequests), acts) <==> Prompt(Init(threads, maxRequests), acts)
  {
    var i := Init(threads, maxRequests);
    assert Handshake(i) && Settled(i);
    hide *;
    if Prompt(i, acts) {
      PromptIsDealt(i, acts);
    }
    if DealtWhenIdle(i, acts) {
      DealtIsPrompt(i, acts);
    }
  }

  /** Whether timer_flag of `fd` is set after the steps, if it was `set` before: a worker whose
      read or write failed sets it, a look that deals with it clears it, and so does init()
      when an answer is done and the connection kept. */
  function FlagAfter(s: System, acts: seq<Act>, fd: int, flagged: bool): bool
    requires Run(s, acts)
    decreases |acts|
  {
    if acts == [] then flagged
    else
      FlagAfter(Step(s, acts[0]), acts[1..], fd,
                match acts[0]
                case Flag(w) => flagged || s.workers[w].fd == fd
                case Look => flagged && s.main.fd != fd
                case Finish(w, KeptAlive) => flagged && s.workers[w].fd != fd
                case _ => flagged)
  }

  lemma {:induction false} FlagExactly(s: System, acts: seq<Act>, fd: int)
    requires Run(s, acts)
    ensures fd in Reached(s, acts).timerFlag <==> FlagAfter(s, acts, fd, fd in s.timerFlag)
    decreases |acts|
  {
    if acts != [] {
      FlagExactly(Step(s, acts[0]), acts[1..], fd);
    }
  }

  /** A look can fall between them: the failed connection is then not closed, and the
      flag stays set for a later handshake. */
  lemma FlagSeenLate(fd: int) returns (acts: seq<Act>)
    ensures Run(Init(1, 1), acts)
    ensures var s := Reached(Init(1, 1), acts);
            s.main.Idle? && s.failed == [fd] && s.consumed == 1 && s.dealt == [] && s.timerFlag == {fd}
  {
    hide Run, Reached;
    var s1 := Init(1, 1).(main := Pushed(fd), queue := [fd], appended := 1);
    var s2 := s1.(main := Spinning(fd), stat := 1);
    var s3 := s2.(stat := 0, workers := [Claimed]);
    acts := ReadFailsLate(fd);
    acts := Then(s3, Take(0), TakenBy(fd), acts, LateFlag(fd));
    acts := Then(s2, Wait(0), s3, acts, LateFlag(fd));
    acts := Then(s1, Post, s2, acts, LateFlag(fd));
    acts := Then(Init(1, 1), Append(fd), s1, acts, LateFlag(fd));
  }

  function TakenBy(fd: int): System {
    System(Spinning(fd), [], 1, 0, [Working(fd)], {}, {}, 1, 0, 0, [], [])
  }

  function LateFlag(fd: int): System {
    System(Idle, [], 1, 0, [AtWait], {}, {fd}, 1, 1, 1, [fd], [])
  }

  lemma ReadFailsLate(fd: int) returns (acts: seq<Act>)
    ensures Run(TakenBy(fd), acts) && Reached(TakenBy(fd), acts) == LateFlag(fd)
  {
    hide Run, Reached;
    var s5 := System(Spinning(fd), [], 1, 0, [Flagging(fd)], {fd}, {}, 1, 1, 0, [fd], []);
    var s6 := s5.(main := Seen(fd));
    var s7 := s5.(main := Looked(fd));
    var s8 := System(Idle, [], 1, 0, [Flagging(fd)], {}, {}, 1, 1, 1, [fd], []);
    acts := Nothing(LateFlag(fd));
    acts := Then(s8, Flag(0), LateFlag(fd), acts, LateFlag(fd));
    acts := Then(s7, Clear, s8, acts, LateFlag(fd));
    acts := Then(s6, Look, s7, acts, LateFlag(fd));
    acts := Then(s5, See, s6, acts, LateFlag(fd));
    acts := Then(TakenBy(fd), Finish(0, Failed), s5, acts, LateFlag(fd));
  }

  lemma Nothing(s: System) returns (acts: seq<Act>)
    ensures Run(s, acts) && Reached(s, acts) == s
  {
    acts := [];
  }

  lemma Then(s: System, a: Act, p: System, rest: seq<Act>, end: System) returns (acts: seq<Act>)
    requires Enabled(s, a) && Step(s, a) == p && Run(p, rest) && Reached(p, rest) == end
    ensures Run(s, acts) && Reached(s, acts) == end
  {
    acts := [a] + rest;
    assert acts[0] == a && acts[1..] == rest;
  }
}
