/** The blocking queue of the logger: a ring buffer under one mutex and one condition
    variable. */
module BlockingQueue {
  import opened Quotients

  // --- what the operations do to a bounded queue ---------------------------------------

  /** push: refused when full. */
  function Pushed<T>(q: seq<T>, limit: nat, x: T): seq<T> {
    if |q| >= limit then q else q + [x]
  }

  /** One passage of pop through its locked region. */
  datatype Popped<T> = Waits | Fails | Item(value: T)

  /** What happens during one pthread_cond_wait: it fails, or it returns after other
      threads have had the mutex. */
  datatype Wait<T> = Failure | Wakeup(others: seq<Other<T>>)
  datatype Other<T> = Push(value: T) | Pop | Clear

  function ByOther<T>(q: seq<T>, limit: nat, o: Other<T>): seq<T> {
    match o
    case Push(x) => Pushed(q, limit, x)
    case Pop => if q == [] then q else q[1..]
    case Clear => []
  }

  function ByOthers<T>(q: seq<T>, limit: nat, os: seq<Other<T>>): seq<T>
    decreases |os|
  {
    if os == [] then q else ByOthers(ByOther(q, limit, os[0]), limit, os[1..])
  }

  /** The item that a push puts into the queue, and the one that a pop takes out. */
  function Entering<T>(q: seq<T>, limit: nat, o: Other<T>): seq<T> {
    if o.Push? && |q| < limit then [o.value] else []
  }

  function Leaving<T>(q: seq<T>, o: Other<T>): seq<T> { if o.Pop? && q != [] then [q[0]] else [] }

  function Entered<T>(q: seq<T>, limit: nat, os: seq<Other<T>>): seq<T>
    decreases |os|
  {
    if os == [] then [] else Entering(q, limit, os[0]) + Entered(ByOther(q, limit, os[0]), limit, os[1..])
  }

  function Left<T>(q: seq<T>, limit: nat, os: seq<Other<T>>): nat
    decreases |os|
  {
    if os == [] then 0 else |Leaving(q, os[0])| + Left(ByOther(q, limit, os[0]), limit, os[1..])
  }

  lemma OneByOne<T>(q: seq<T>, limit: nat, o: Other<T>)
    requires !o.Clear?
    ensures q + Entering(q, limit, o) == Leaving(q, o) + ByOther(q, limit, o)
  {
    assert q + [] == q == [] + q;
    assert q != [] ==> q == [q[0]] + q[1..];
    assert o.Push? ==> [] + (q + [o.value]) == q + [o.value];
  }

  /** What has left is in front of what is there. */
  lemma BehindLeaving<T>(q: seq<T>, i: seq<T>, e: seq<T>, gone: seq<T>, p: seq<T>, n: nat)
    requires q + i == gone + p && n <= |p| + |e|
    ensures |q + (i + e)| == |gone| + |p| + |e|
    ensures (q + (i + e))[|gone| + n..] == (p + e)[n..]
  {
    assert q + (i + e) == (q + i) + e == gone + (p + e);
  }

  /** First in, first out: without a clear, what is there after others had the mutex is what
      was there and what entered, less the oldest that left. */
  lemma {:induction false} FirstInFirstOut<T>(q: seq<T>, limit: nat, os: seq<Other<T>>)
    requires forall i :: 0 <= i < |os| ==> !os[i].Clear?
    ensures Left(q, limit, os) <= |q| + |Entered(q, limit, os)|
    ensures ByOthers(q, limit, os) == (q + Entered(q, limit, os))[Left(q, limit, os)..]
    decreases |os|
  {
    hide ByOther, Entering, Leaving;
    if os == [] {
      assert (q + [])[0..] == q;
    } else {
      var p, rest := ByOther(q, limit, os[0]), os[1..];
      FirstInFirstOut(p, limit, rest);
      OneByOne(q, limit, os[0]);
      BehindLeaving(q, Entering(q, limit, os[0]), Entered(p, limit, rest), Leaving(q, os[0]), p,
                    Left(p, limit, rest));
    }
  }

  lemma ClearEmpties<T>(q: seq<T>, limit: nat, os: seq<Other<T>>)
    ensures ByOthers(q, limit, [Clear] + os) == ByOthers([], limit, os)
  {
    assert ([Other<T>.Clear] + os)[1..] == os;
  }

  /** pop over the waits it goes through; Waits if they do not suffice. */
  function AfterWaits<T>(q: seq<T>, limit: nat, waits: seq<Wait<T>>): (Popped<T>, seq<T>)
    decreases |waits|
  {
    if q != [] then (Item(q[0]), q[1..])
    else if waits == [] then (Waits, q)
    else match waits[0]
      case Failure => (Fails, q)
      case Wakeup(others) => AfterWaits(ByOthers(q, limit, others), limit, waits[1..])
  }

  /** The queue after the first k waits, all of which woke. */
  function QueueAfter<T>(q: seq<T>, limit: nat, waits: seq<Wait<T>>, k: nat): seq<T>
    requires k <= |waits| && forall i :: 0 <= i < k ==> waits[i].Wakeup?
  {
    if k == 0 then q else ByOthers(QueueAfter(q, limit, waits, k - 1), limit, waits[k - 1].others)
  }

  /** The consumer has come to its test of the queue behind k waits: all of these woke it, and
      it found the queue empty before each. */
  ghost predicate Tests<T>(q: seq<T>, limit: nat, waits: seq<Wait<T>>, k: nat) {
    && k <= |waits| && (forall i :: 0 <= i < k ==> waits[i].Wakeup?)
    && forall i :: 0 <= i < k ==> QueueAfter(q, limit, waits, i) == []
  }

  /** A pop, said of its waits alone: it returns the front at the first test that finds the
      queue not empty; it fails iff a wait fails behind a test that found it empty; and it
      still waits iff it has found it empty behind all of them. */
  ghost predicate PopsBy<T>(q: seq<T>, limit: nat, waits: seq<Wait<T>>, r: Popped<T>, now: seq<T>) {
    && (forall k: nat :: Tests(q, limit, waits, k) && QueueAfter(q, limit, waits, k) != [] ==>
          r == Item(QueueAfter(q, limit, waits, k)[0]) && now == QueueAfter(q, limit, waits, k)[1..])
    && (forall k: nat :: Tests(q, limit, waits, k) && QueueAfter(q, limit, waits, k) == [] ==>
          (k < |waits| && waits[k].Failure? ==> r == Fails && now == [])
          && (k == |waits| ==> r == Waits && now == []))
    && exists k: nat :: EndsAt(q, limit, waits, k)
  }

  /** The pop is decided at this test or at the wait behind it. */
  ghost predicate EndsAt<T>(q: seq<T>, limit: nat, waits: seq<Wait<T>>, k: nat) {
    Tests(q, limit, waits, k) && (QueueAfter(q, limit, waits, k) != [] || k == |waits| || waits[k].Failure?)
  }

  lemma {:induction false} QueueAfterFirst<T>(q: seq<T>, limit: nat, waits: seq<Wait<T>>, k: nat)
    requires 0 < k <= |waits| && forall i :: 0 <= i < k ==> waits[i].Wakeup?
    ensures QueueAfter(q, limit, waits, k)
            == QueueAfter(ByOthers(q, limit, waits[0].others), limit, waits[1..], k - 1)
  {
    if k > 1 {
      QueueAfterFirst(q, limit, waits, k - 1);
    }
  }

  lemma TestsFirst<T>(q: seq<T>, limit: nat, waits: seq<Wait<T>>, k: nat)
    requires k > 0 && waits != [] && waits[0].Wakeup? && q == []
    ensures Tests(q, limit, waits, k) <==> Tests(ByOthers(q, limit, waits[0].others), limit, waits[1..], k - 1)
  {
    hide QueueAfter;
    var r, rest := ByOthers(q, limit, waits[0].others), waits[1..];
    if Tests(q, limit, waits, k) {
      forall i | 0 <= i < k - 1 ensures QueueAfter(r, limit, rest, i) == [] {
        assert waits[i + 1].Wakeup?;
        QueueAfterFirst(q, limit, waits, i + 1);
      }
    }
    if Tests(r, limit, rest, k - 1) {
      forall i | 0 <= i < k ensures waits[i].Wakeup? {
        assert i > 0 ==> rest[i - 1].Wakeup?;
      }
      forall i | 0 <= i < k ensures QueueAfter(q, limit, waits, i) == [] {
        if i > 0 {
          QueueAfterFirst(q, limit, waits, i);
        } else {
          NoneWaited(q, limit, waits);
        }
      }
    }
  }

  lemma NoneWaited<T>(q: seq<T>, limit: nat, waits: seq<Wait<T>>)
    ensures QueueAfter(q, limit, waits, 0) == q
  {
  }

  lemma {:induction false} PopsExactly<T>(q: seq<T>, limit: nat, waits: seq<Wait<T>>)
    ensures PopsBy(q, limit, waits, AfterWaits(q, limit, waits).0, AfterWaits(q, limit, waits).1)
    decreases |waits|
  {
    hide QueueAfter;
    NoneWaited(q, limit, waits);
    if q == [] && waits != [] && waits[0].Wakeup? {
      var p, rest := ByOthers(q, limit, waits[0].others), waits[1..];
      PopsExactly(p, limit, rest);
      var (r, now) := AfterWaits(q, limit, waits);
      forall k: nat | Tests(q, limit, waits, k)
        ensures k > 0 ==> Tests(p, limit, rest, k - 1)
                          && QueueAfter(q, limit, waits, k) == QueueAfter(p, limit, rest, k - 1)
      {
        if k > 0 {
          TestsFirst(q, limit, waits, k);
          QueueAfterFirst(q, limit, waits, k);
        }
      }
      var k: nat :| EndsAt(p, limit, rest, k);
      TestsFirst(q, limit, waits, k + 1);
      QueueAfterFirst(q, limit, waits, k + 1);
      assert EndsAt(q, limit, waits, k + 1);
    } else {
      assert EndsAt(q, limit, waits, 0);
    }
  }

  // --- the ring ------------------------------------------------------------------------

  /** The i-th slot from start on. */
  function Slot(start: nat, i: nat, size: nat): (t: nat)
    requires size > 0
    ensures t < size
  {
    (start + i) % size
  }

  /** n slots of the ring a from start on. */
  function Slots<T>(a: seq<T>, start: nat, n: nat): (s: seq<T>)
    requires |a| > 0
    ensures |s| == n
  {
    seq(n, i requires 0 <= i < n => a[Slot(start, i, |a|)])
  }

  lemma DifferentSlots(start: nat, i: nat, n: nat, size: nat)
    requires i < n < size
    ensures Slot(start, i, size) != Slot(start, n, size)
  {
    var k, l := (start + i) / size, (start + n) / size;
    if Slot(start, i, size) == Slot(start, n, size) {
      assert n - i == (l - k) * size;
      if l - k >= 1 {
        MulMonotone(1, l - k, size);
      } else {
        MulMonotone(l - k, 0, size);
      }
    }
  }

  /** Residues may be taken early. */
  lemma SlotAfter(start: nat, i: nat, size: nat)
    requires size > 0
    ensures Slot(start % size, i, size) == Slot(start, i, size)
  {
    var k, x := start / size, start % size + i;
    assert start + i == k * size + x;
    assert x == (x / size) * size + x % size;
    assert start + i == (k + x / size) * size + x % size by {
      assert (k + x / size) * size == k * size + (x / size) * size;
    }
    Quotient(start + i, k + x / size, x % size, size);
  }

  lemma FirstSlot(start: nat, size: nat)
    requires size > 0
    ensures Slot(start, 0, size) == start % size
  {
  }

  lemma NextSlot(start: nat, n: nat, size: nat)
    requires size > 0
    ensures Slot(Slot(start, n, size) + 1, 0, size) == Slot(start, n + 1, size)
  {
    SlotAfter(start + n, 1, size);
  }

  lemma BehindFirst(start: nat, n: nat, size: nat)
    requires 0 < n && size > 0
    ensures Slot(Slot(start, 0, size) + 1, n - 1, size) == Slot(start, n, size)
  {
    SlotAfter(start, n, size);
  }

  lemma NotFull<T>(q: seq<T>, limit: nat, x: T)
    requires |q| < limit
    ensures Pushed(q, limit, x) == q + [x]
  {
  }

  lemma SlotsPush<T>(a: seq<T>, start: nat, n: nat, x: T)
    requires n < |a|
    ensures Slots(a[Slot(start, n, |a|) := x], start, n + 1) == Slots(a, start, n) + [x]
  {
    hide Slot;
    var b := a[Slot(start, n, |a|) := x];
    forall i | 0 <= i < n ensures b[Slot(start, i, |a|)] == a[Slot(start, i, |a|)] {
      DifferentSlots(start, i, n, |a|);
    }
  }

  lemma SlotsPop<T>(a: seq<T>, start: nat, n: nat)
    requires 0 < n <= |a|
    ensures a[Slot(start, 0, |a|)] == Slots(a, start, n)[0]
    ensures Slots(a, Slot(start, 0, |a|) + 1, n - 1) == Slots(a, start, n)[1..]
  {
    var next := Slot(start, 0, |a|) + 1;
    forall i: nat ensures Slot(next, i, |a|) == Slot(start, i + 1, |a|) {
      SlotAfter(start, i + 1, |a|);
      assert next + i == start % |a| + (i + 1);
    }
    hide Slot;
  }

  class BlockQueue<T(0)> {
    const m_max_size: int
    const m_array: array<T>
    var m_size: int
    var m_front: int
    var m_back: int

    /** m_back is m_front + m_size round the ring; both start from -1. */
    ghost predicate Valid()
      reads this
    {
      && m_max_size == m_array.Length > 0
      && 0 <= m_size <= m_max_size
      && -1 <= m_front < m_max_size
      && -1 <= m_back < m_max_size
      && (m_size > 0 ==> m_back >= 0)
      && Slot(m_back + 1, 0, m_max_size) == Slot(m_front + 1, m_size, m_max_size)
    }

    ghost function Contents(): (q: seq<T>)
      requires Valid()
      reads this, m_array
      ensures |q| == m_size
    {
      Slots(m_array[..], m_front + 1, m_size)
    }

    constructor (max_size: int)
      requires max_size > 0
      ensures Valid() && fresh(m_array) && m_max_size == max_size && Contents() == []
    {
      m_max_size := max_size;
      m_array := new T[max_size];
      m_size := 0;
      m_front := -1;
      m_back := -1;
    }

    method clear()
      requires Valid()
      modifies this
      ensures Valid() && Contents() == [] && m_front == m_back == -1
    {
      m_size := 0;
      m_front := -1;
      m_back := -1;
    }

    method full() returns (r: bool)
      requires Valid()
      ensures r <==> |Contents()| == m_max_size
    {
      r := m_size >= m_max_size;
    }

    /** value is returned as it was when there is nothing to read. */
    method front(value: T) returns (ok: bool, read: T)
      requires Valid()
      ensures ok == (Contents() != [])
      ensures read == if ok then Contents()[0] else value
    {
      if 0 == m_size {
        return false, value;
      }
      var t := (m_front + 1) % m_max_size;
      return true, m_array[t];
    }

    method back(value: T) returns (ok: bool, read: T)
      requires Valid()
      ensures ok == (Contents() != [])
      ensures read == if ok then Contents()[|Contents()| - 1] else value
    {
      if m_size == 0 {
        return false, value;
      }
      LastSlot();
      return true, m_array[m_back];
    }

    lemma LastSlot()
      requires Valid() && m_size > 0
      ensures m_back == Slot(m_front + 1, m_size - 1, m_max_size)
    {
      Predecessor(m_back, m_front + m_size, m_max_size);
    }

    method push(item: T) returns (ok: bool)
      requires Valid()
      modifies this, m_array
      ensures Valid()
      ensures ok == (old(|Contents()|) < m_max_size)
      ensures Contents() == if ok then old(Contents()) + [item] else old(Contents())
      ensures Contents() == Pushed(old(Contents()), m_max_size, item)
    {
      if m_size >= m_max_size {
        return false;
      }
      hide Slots, Slot, Pushed;
      ghost var a, next := m_array[..], Slot(m_front + 1, m_size, m_max_size);
      SlotsPush(a, m_front + 1, m_size, item);
      FirstSlot(m_back + 1, m_max_size);
      m_back := (m_back + 1) % m_max_size;
      assert m_back == next;
      m_array[m_back] := item;
      assert m_array[..] == a[next := item];
      NextSlot(m_front + 1, m_size, m_max_size);
      m_size := m_size + 1;
      NotFull(old(Contents()), m_max_size, item);
      return true;
    }

    /** The end of pop, once there is something to take. */
    method take() returns (item: T)
      requires Valid() && Contents() != []
      modifies this
      ensures Valid()
      ensures [item] + Contents() == old(Contents())
    {
      hide Slots, Slot;
      SlotsPop(m_array[..], m_front + 1, m_size);
      FirstSlot(m_front + 1, m_max_size);
      BehindFirst(m_front + 1, m_size, m_max_size);
      m_front := (m_front + 1) % m_max_size;
      item := m_array[m_front];
      m_size := m_size - 1;
    }

    method pop(waits: seq<Wait<T>>) returns (r: Popped<T>)
      requires Valid()
      modifies this, m_array
      ensures Valid()
      ensures (r, Contents()) == AfterWaits(old(Contents()), m_max_size, waits)
      ensures PopsBy(old(Contents()), m_max_size, waits, r, Contents())
    {
      PopsExactly(Contents(), m_max_size, waits);
      hide PopsBy;
      var i := 0;
      while m_size <= 0
        invariant Valid() && i <= |waits|
        invariant AfterWaits(Contents(), m_max_size, waits[i..]) == AfterWaits(old(Contents()), m_max_size, waits)
        decreases |waits| - i
      {
        if i == |waits| {
          return Waits;
        }
        if waits[i].Failure? {
          return Fails;
        }
        during(waits[i].others);
        i := i + 1;
      }
      ghost var q := Contents();
      var item := take();
      assert q[1..] == Contents();
      return Item(item);
    }

    /** Other threads while this one waits. */
    method during(others: seq<Other<T>>)
      requires Valid()
      modifies this, m_array
      ensures Valid() && Contents() == ByOthers(old(Contents()), m_max_size, others)
      decreases |others|
    {
      if others != [] {
        ghost var q := Contents();
        match others[0] {
          case Push(x) =>
            var _ := push(x);
          case Pop =>
            if m_size > 0 {
              var _ := take();
              assert Contents() == q[1..];
            }
          case Clear =>
            clear();
        }
        assert Contents() == ByOther(q, m_max_size, others[0]);
        during(others[1..]);
      }
    }
  }

  lemma Predecessor(x: nat, y: nat, size: nat)
    requires x < size && Slot(x + 1, 0, size) == Slot(y + 1, 0, size)
    ensures x == Slot(y, 0, size)
  {
    SlotAfter(y, 1, size);
    var r := y % size;
    if x < r {
      DifferentSlots(1, x, r, size);
    } else if r < x {
      DifferentSlots(1, r, x, size);
    }
  }
}
