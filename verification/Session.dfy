/** The send queue of a session: however many threads send, one write at a time. */
module Session {
  import opened Wrappers

  type Message = string

  /** An asynchronous write: chosen under the lock but not issued yet, issued, or ended
      with its HandleWrite not yet in the locked region. */
  datatype Operation =
    | Starting(message: Message)
    | InFlight(message: Message)
    | Ended(message: Message, error: bool)

  datatype System = System(
    limit: nat,              // MAX_SENDQUE
    queue: seq<Message>,     // send_que
    closed: bool,            // b_close
    operations: seq<Operation>,
    accepted: seq<Message>,
    started: seq<Message>,
    completed: seq<Message>)

  datatype Act =
    | Send(message: Message)
    | AsyncWrite(i: nat)
    | End(i: nat, error: bool)
    | HandleWrite(i: nat)

  function Init(limit: nat): System { System(limit, [], false, [], [], [], []) }

  /** HandleWrite without an error pops; popping an empty queue is not defined. */
  ghost predicate Enabled(s: System, a: Act) {
    match a
    case Send(_) => true
    case AsyncWrite(i) => i < |s.operations| && s.operations[i].Starting?
    case End(i, _) => i < |s.operations| && s.operations[i].InFlight?
    case HandleWrite(i) => i < |s.operations| && s.operations[i].Ended?
  }

  function Without<T>(s: seq<T>, i: nat): seq<T>
    requires i < |s|
  {
    s[..i] + s[i + 1..]
  }

  /** The write of the front, if there is one. */
  function Next(queue: seq<Message>): seq<Operation> {
    if queue == [] then [] else [Starting(queue[0])]
  }

  function Step(s: System, a: Act): System
    requires Enabled(s, a)
  {
    match a
    case Send(m) =>
      if |s.queue| > s.limit then s
      else
        s.(queue := s.queue + [m], accepted := s.accepted + [m],
           operations := if s.queue == [] then s.operations + [Starting(m)] else s.operations)
    case AsyncWrite(i) =>
      var m := s.operations[i].message;
      s.(operations := s.operations[i := InFlight(m)], started := s.started + [m])
    case End(i, error) => s.(operations := s.operations[i := Ended(s.operations[i].message, error)])
    case HandleWrite(i) =>
      var o := s.operations[i];
      if o.error then s.(operations := Without(s.operations, i), closed := true)
      else
        var queue := if s.queue == [] then [] else s.queue[1..];
        s.(queue := queue, operations := Without(s.operations, i) + Next(queue),
           completed := s.completed + [o.message])
  }

  ghost predicate Run(s: System, acts: seq<Act>)
    decreases |acts|
  {
    acts != [] ==> Enabled(s, acts[0]) && Run(Step(s, acts[0]), acts[1..])
  }

  ghost function Reached(s: System, acts: seq<Act>): System
    requires Run(s, acts)
    decreases |acts|
  {
    if acts == [] then s else Reached(Step(s, acts[0]), acts[1..])
  }

  ghost predicate Inv(s: System) {
    && |s.queue| <= s.limit + 1
    && s.accepted == s.completed + s.queue
    && (if s.closed then s.operations == [] && s.queue != []
        else |s.operations| == if s.queue == [] then 0 else 1)
    && (s.operations != [] ==> s.operations[0].message == s.queue[0])
    && s.started == s.completed + (if s.closed || (s.operations != [] && !s.operations[0].Starting?)
                                   then [s.queue[0]] else [])
  }

  lemma StepKeepsInv(s: System, a: Act)
    requires Inv(s) && Enabled(s, a)
    ensures Inv(Step(s, a))
  {
    if a.HandleWrite? {
      assert a.i == 0 && Without(s.operations, 0) == [];
      assert s.queue == [s.queue[0]] + s.queue[1..];
    }
  }

  lemma {:induction false} RunKeepsInv(s: System, acts: seq<Act>)
    requires Run(s, acts) && Inv(s)
    ensures Inv(Reached(s, acts)) && Reached(s, acts).limit == s.limit
    decreases |acts|
  {
    if acts != [] {
      StepKeepsInv(s, acts[0]);
      RunKeepsInv(Step(s, acts[0]), acts[1..]);
    }
  }

  /** Over every interleaving: messages complete in the order they were accepted; until
      an error exactly one write is being started, in flight or handled iff the queue is
      not empty, and it is that of the front, which stays queued meanwhile; no pop meets
      an empty queue; and a message is accepted as long as the queue is within its limit. */
  lemma OneWriteAtATime(limit: nat, acts: seq<Act>)
    requires Run(Init(limit), acts)
    ensures var s := Reached(Init(limit), acts);
            && s.accepted == s.completed + s.queue
            && s.completed <= s.started <= s.accepted
            && |s.queue| <= limit + 1
            && (!s.closed ==> |s.operations| == if s.queue == [] then 0 else 1)
            && (forall o <- s.operations :: s.queue != [] && o.message == s.queue[0])
            && (forall i: nat :: Enabled(s, HandleWrite(i)) ==> s.queue != [])
            && forall m :: Step(s, Send(m)).accepted == s.accepted + [m] <==> |s.queue| <= limit
  {
    RunKeepsInv(Init(limit), acts);
    var s := Reached(Init(limit), acts);
    assert s.queue != [] ==> s.queue == [s.queue[0]] + s.queue[1..];
    assert forall m :: |s.accepted + [m]| == |s.accepted| + 1;
  }

  /** After a failed write nothing is ever written again, though messages are still
      accepted until the queue is full. */
  lemma {:induction false} SilentAfterError(s: System, acts: seq<Act>)
    requires Inv(s) && s.closed && Run(s, acts)
    ensures var t := Reached(s, acts);
            && t.operations == [] && t.closed && t.started == s.started && t.completed == s.completed
            && s.queue <= t.queue && |t.queue| <= s.limit + 1
    decreases |acts|
  {
    if acts != [] {
      StepKeepsInv(s, acts[0]);
      SilentAfterError(Step(s, acts[0]), acts[1..]);
    }
  }

  class CSession {
    const MAX_SENDQUE: nat
    var send_que: seq<Message>
    var b_close: bool
    ghost var operations: seq<Operation>
    ghost var accepted: seq<Message>
    ghost var started: seq<Message>
    ghost var completed: seq<Message>

    ghost function Now(): System
      reads this
    {
      System(MAX_SENDQUE, send_que, b_close, operations, accepted, started, completed)
    }

    constructor (limit: nat)
      ensures Now() == Init(limit) && send_que == [] && !b_close && MAX_SENDQUE == limit
    {
      MAX_SENDQUE := limit;
      send_que, b_close := [], false;
      operations, accepted, started, completed := [], [], [], [];
    }

    /** Send up to the end of its lock; `write` is what it goes on to write. */
    method Send(msg: Message) returns (write: Option<Message>)
      modifies this
      ensures Now() == Step(old(Now()), Act.Send(msg))
      ensures send_que == old(send_que) + if |old(send_que)| > MAX_SENDQUE then [] else [msg]
      ensures write == if old(send_que) == [] then Some(msg) else None
      ensures b_close == old(b_close)
      ensures write.Some? ==> operations == old(operations) + [Starting(write.value)]
    {
      var send_que_size := |send_que|;
      if send_que_size > MAX_SENDQUE {
        return None;
      }
      send_que := send_que + [msg];
      accepted := accepted + [msg];
      if send_que_size > 0 {
        return None;
      }
      write := Some(send_que[0]);
      operations := operations + [Starting(write.value)];
    }

    method AsyncWrite(ghost i: nat, msgnode: Message)
      requires Enabled(Now(), Act.AsyncWrite(i)) && operations[i].message == msgnode
      modifies this`operations, this`started
      ensures Now() == Step(old(Now()), Act.AsyncWrite(i)) && started == old(started) + [msgnode]
    {
      operations := operations[i := InFlight(msgnode)];
      started := started + [msgnode];
    }

    method Close()
      modifies this`b_close
      ensures b_close
    {
      b_close := true;
    }

    method HandleWrite(ghost i: nat, error: bool) returns (write: Option<Message>)
      requires Inv(Now()) && Enabled(Now(), Act.HandleWrite(i)) && operations[i].error == error
      modifies this
      ensures Now() == Step(old(Now()), Act.HandleWrite(i)) && Inv(Now())
      ensures if error then send_que == old(send_que) && b_close && write == None
              else old(send_que) != [] && send_que == old(send_que)[1..] && b_close == old(b_close)
                   && write == if send_que == [] then None else Some(send_que[0])
      ensures write.Some? ==> operations == [Starting(write.value)]
    {
      StepKeepsInv(Now(), Act.HandleWrite(i));
      ghost var o := operations[i];
      operations := Without(operations, i);
      if !error {
        assert send_que != [];
        completed := completed + [o.message];
        send_que := send_que[1..];
        if send_que != [] {
          write := Some(send_que[0]);
          operations := operations + [Starting(write.value)];
        } else {
          write := None;
        }
      } else {
        write := None;
        Close();
      }
    }
  }
}
