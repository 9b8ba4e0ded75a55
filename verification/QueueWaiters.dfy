/** The wait set of the queue's condition variable: any number of producers, and consumers
    that each run pop again and again. */
module QueueWaiters {
  import opened BlockingQueue

  datatype Consumer =
    | Outside
    | Asleep    // in the wait set
    | Runnable  // in pop, about to lock the mutex, newly or again

  datatype System<T> = System(
    queue: seq<T>,
    limit: nat,
    consumers: seq<Consumer>,
    accepted: seq<T>,  // pushed since the last clear
    taken: seq<T>)     // popped since the last clear

  datatype Act<T> =
    | Push(value: T)
    | Clear
    | Enter(c: nat)
    | Go(c: nat)         // lock the mutex, then take an item or wait
    | Spurious(c: nat)
    | Broken(c: nat)     // the wait fails, pop returns false

  function Init<T>(limit: nat, consumers: nat): System<T> {
    System([], limit, seq(consumers, _ => Outside), [], [])
  }

  ghost predicate Enabled<T>(s: System<T>, a: Act<T>) {
    match a
    case Push(_) => true
    case Clear => true
    case Enter(c) => c < |s.consumers| && s.consumers[c].Outside?
    case Go(c) => c < |s.consumers| && s.consumers[c].Runnable?
    case Spurious(c) => c < |s.consumers| && s.consumers[c].Asleep?
    case Broken(c) => c < |s.consumers| && s.consumers[c].Asleep?
  }

  function Broadcast(cs: seq<Consumer>): (r: seq<Consumer>)
    ensures |r| == |cs|
    ensures forall i :: 0 <= i < |cs| ==> r[i] == if cs[i].Asleep? then Runnable else cs[i]
  {
    seq(|cs|, i requires 0 <= i < |cs| => if cs[i].Asleep? then Runnable else cs[i])
  }

  function Step<T>(s: System<T>, a: Act<T>): System<T>
    requires Enabled(s, a)
  {
    match a
    case Push(x) =>
      System(Pushed(s.queue, s.limit, x), s.limit, Broadcast(s.consumers),
             if |s.queue| >= s.limit then s.accepted else s.accepted + [x], s.taken)
    case Clear => s.(queue := [], accepted := [], taken := [])
    case Enter(c) => s.(consumers := s.consumers[c := Runnable])
    case Go(c) =>
      if s.queue == [] then s.(consumers := s.consumers[c := Asleep])
      else s.(consumers := s.consumers[c := Outside], queue := s.queue[1..], taken := s.taken + [s.queue[0]])
    case Spurious(c) => s.(consumers := s.consumers[c := Runnable])
    case Broken(c) => s.(consumers := s.consumers[c := Outside])
  }

  ghost predicate Run<T>(s: System<T>, acts: seq<Act<T>>)
    decreases |acts|
  {
    acts != [] ==> Enabled(s, acts[0]) && Run(Step(s, acts[0]), acts[1..])
  }

  ghost function Reached<T>(s: System<T>, acts: seq<Act<T>>): System<T>
    requires Run(s, acts)
    decreases |acts|
  {
    if acts == [] then s else Reached(Step(s, acts[0]), acts[1..])
  }

  ghost predicate Awake<T>(s: System<T>) {
    s.queue != [] ==> forall c :: 0 <= c < |s.consumers| ==> !s.consumers[c].Asleep?
  }

  ghost predicate InOrder<T>(s: System<T>) {
    s.accepted == s.taken + s.queue && |s.queue| <= s.limit
  }

  lemma StepKeeps<T>(s: System<T>, a: Act<T>)
    requires Enabled(s, a) && Awake(s) && InOrder(s)
    ensures Awake(Step(s, a)) && InOrder(Step(s, a))
  {
    if a.Go? && s.queue != [] {
      assert s.queue == [s.queue[0]] + s.queue[1..];
    }
  }

  lemma {:induction false} RunKeeps<T>(s: System<T>, acts: seq<Act<T>>)
    requires Run(s, acts) && Awake(s) && InOrder(s)
    ensures Awake(Reached(s, acts)) && InOrder(Reached(s, acts))
    decreases |acts|
  {
    if acts != [] {
      StepKeeps(s, acts[0]);
      RunKeeps(Step(s, acts[0]), acts[1..]);
    }
  }

  /** No wake-up is lost: while there is an item, every consumer inside pop can go on and
      would take the oldest one; and items come out in the order they went in. */
  lemma NoWakeupLost<T>(limit: nat, consumers: nat, acts: seq<Act<T>>)
    requires Run(Init(limit, consumers), acts)
    ensures var s := Reached(Init(limit, consumers), acts);
            && s.accepted == s.taken + s.queue
            && |s.queue| <= limit
            && forall c: nat :: c < |s.consumers| && s.queue != [] && !s.consumers[c].Outside? ==>
                 Enabled(s, Go(c)) && Step(s, Go(c)).taken == s.taken + [s.queue[0]]
  {
    RunKeeps(Init(limit, consumers), acts);
    LimitKept(Init(limit, consumers), acts);
  }

  lemma {:induction false} LimitKept<T>(s: System<T>, acts: seq<Act<T>>)
    requires Run(s, acts)
    ensures Reached(s, acts).limit == s.limit
    decreases |acts|
  {
    if acts != [] {
      LimitKept(Step(s, acts[0]), acts[1..]);
    }
  }

  /** How many consumers are inside pop. */
  function Inside(cs: seq<Consumer>): nat {
    if cs == [] then 0 else (if cs[0].Outside? then 0 else 1) + Inside(cs[1..])
  }

  lemma {:induction false} InsideUpdate(cs: seq<Consumer>, c: nat, to: Consumer)
    requires c < |cs|
    ensures Inside(cs[c := to]) - (if to.Outside? then 0 else 1) == Inside(cs) - if cs[c].Outside? then 0 else 1
  {
    if c == 0 {
      assert cs[0 := to][1..] == cs[1..];
    } else {
      assert cs[c := to][1..] == cs[1..][c - 1 := to];
      InsideUpdate(cs[1..], c - 1, to);
    }
  }

  lemma {:induction false} BroadcastInside(cs: seq<Consumer>)
    ensures Inside(Broadcast(cs)) == Inside(cs)
  {
    if cs != [] {
      assert Broadcast(cs)[1..] == Broadcast(cs[1..]);
      BroadcastInside(cs[1..]);
    }
  }

  /** Calls of pop less those that have returned false because the wait failed. */
  function Entries<T>(acts: seq<Act<T>>): int {
    if acts == [] then 0
    else (if acts[0].Enter? then 1 else if acts[0].Broken? then -1 else 0) + Entries(acts[1..])
  }

  /** How many items have been taken, before and since the last clear. */
  function Items<T>(s: System<T>, acts: seq<Act<T>>): nat
    requires Run(s, acts)
    decreases |acts|
  {
    if acts == [] then 0
    else (if acts[0].Go? && s.queue != [] then 1 else 0) + Items(Step(s, acts[0]), acts[1..])
  }

  lemma StepInside<T>(s: System<T>, a: Act<T>)
    requires Enabled(s, a)
    ensures Inside(Step(s, a).consumers) == Inside(s.consumers) + (if a.Enter? then 1 else 0)
                                            - if a.Broken? || (a.Go? && s.queue != []) then 1 else 0
  {
    hide Inside, Pushed, Broadcast;
    match a {
      case Push(_) => BroadcastInside(s.consumers);
      case Clear =>
      case Enter(c) => InsideUpdate(s.consumers, c, Runnable);
      case Go(c) => InsideUpdate(s.consumers, c, if s.queue == [] then Asleep else Outside);
      case Spurious(c) => InsideUpdate(s.consumers, c, Runnable);
      case Broken(c) => InsideUpdate(s.consumers, c, Outside);
    }
  }

  lemma {:induction false} InsideAlong<T>(s: System<T>, acts: seq<Act<T>>)
    requires Run(s, acts)
    ensures Inside(Reached(s, acts).consumers) + Items(s, acts) == Inside(s.consumers) + Entries(acts)
    decreases |acts|
  {
    hide Inside, Step, Enabled;
    if acts != [] {
      StepInside(s, acts[0]);
      InsideAlong(Step(s, acts[0]), acts[1..]);
    }
  }

  lemma {:induction false} NobodyInside(n: nat)
    ensures Inside(seq(n, _ => Outside)) == 0
  {
    if n > 0 {
      assert seq(n, _ => Outside)[1..] == seq(n - 1, _ => Outside);
      NobodyInside(n - 1);
    }
  }

  /** Over every run, whoever calls pop stays inside it until it has an item, or its wait
      fails: the calls are the items taken, the waits failed, and those still inside. */
  lemma EveryPopTakesOne<T>(limit: nat, consumers: nat, acts: seq<Act<T>>)
    requires Run(Init(limit, consumers), acts)
    ensures var i := Init<T>(limit, consumers);
            Entries(acts) == Items(i, acts) + Inside(Reached(i, acts).consumers)
  {
    NobodyInside(consumers);
    InsideAlong(Init(limit, consumers), acts);
  }
}
