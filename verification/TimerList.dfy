/** sort_timer_lst: the doubly-linked list of timers. */
module TimerList {
  import opened TimerSequence

  class UtilTimer {
    var expire: int
    /** The descriptor in user_data. */
    const sockfd: int
    var prev: UtilTimer?
    var next: UtilTimer?

    constructor (sockfd: int, expire: int)
      ensures this.sockfd == sockfd && this.expire == expire && prev == null && next == null
    {
      this.sockfd, this.expire := sockfd, expire;
      prev, next := null, null;
    }
  }

  /** Where cb_func takes effect: the descriptors it closes, the user count. */
  class Connections {
    var open: set<int>
    /** The descriptors that are some connection's m_sockfd. */
    var m_sockfds: set<int>
    var m_user_count: int
    ghost var closed: seq<int>

    constructor ()
      ensures open == {} && m_sockfds == {} && m_user_count == 0 && closed == []
    {
      open, m_sockfds, m_user_count, closed := {}, {}, 0, [];
    }

    method cb_func(sockfd: int)
      modifies this`open, this`m_user_count, this`closed
      ensures open == old(open) - {sockfd} && m_user_count == old(m_user_count) - 1
      ensures closed == old(closed) + [sockfd]
    {
      open := open - {sockfd};
      m_user_count := m_user_count - 1;
      closed := closed + [sockfd];
    }
  }

  /** prev and next link the nodes in this order. */
  ghost predicate Chained(s: seq<UtilTimer>)
    reads s`prev, s`next
  {
    && (forall i, j :: 0 <= i < j < |s| ==> s[i] != s[j])
    && (forall i {:trigger s[i].prev} :: 0 <= i < |s| ==> s[i].prev == Before(s, i))
    && (forall i {:trigger s[i].next} :: 0 <= i < |s| ==> s[i].next == After(s, i))
  }

  ghost function Before(s: seq<UtilTimer>, i: nat): UtilTimer?
    requires i < |s|
  {
    if i == 0 then null else s[i - 1]
  }

  ghost function After(s: seq<UtilTimer>, i: nat): UtilTimer?
    requires i < |s|
  {
    if i + 1 == |s| then null else s[i + 1]
  }

  ghost function EntriesOf(s: seq<UtilTimer>): (r: seq<Entry<UtilTimer>>)
    reads s`expire
    ensures |r| == |s|
    ensures forall i :: 0 <= i < |s| ==> r[i] == Entry(s[i], s[i].expire)
  {
    if s == [] then [] else [Entry(s[0], s[0].expire)] + EntriesOf(s[1..])
  }

  class SortTimerLst {
    var head: UtilTimer?
    var tail: UtilTimer?
    /** The nodes in list order. */
    ghost var nodes: seq<UtilTimer>

    /** The links agree with `nodes`; `tail` counts only while there is a head, for
        tick leaves it on a deleted node when it empties the list. */
    ghost predicate Valid()
      reads this, nodes`prev, nodes`next
    {
      && Chained(nodes)
      && (head == if nodes == [] then null else nodes[0])
      && (head != null ==> tail == nodes[|nodes| - 1])
    }

    ghost function Entries(): seq<Entry<UtilTimer>>
      reads this, nodes`expire
    {
      EntriesOf(nodes)
    }

    constructor ()
      ensures Valid() && nodes == []
    {
      head, tail, nodes := null, null, [];
    }

    /** The four pointer writes that take `timer` in between `prev` and `tmp`. */
    static method set_links(timer: UtilTimer, prev: UtilTimer, tmp: UtilTimer?, ghost s: seq<UtilTimer>, ghost j: nat)
      requires Chained(s) && timer !in s && 0 < j <= |s|
      requires prev == s[j - 1] && tmp == After(s, j - 1)
      modifies s`prev, s`next, timer`prev, timer`next
      ensures s[j - 1].next == timer && timer.prev == s[j - 1] && timer.next == After(s, j - 1)
      ensures j < |s| ==> s[j].prev == timer
      ensures forall i {:trigger s[i].prev} :: 0 <= i < |s| && i != j ==> s[i].prev == Before(s, i)
      ensures forall i {:trigger s[i].next} :: 0 <= i < |s| && i != j - 1 ==> s[i].next == After(s, i)
    {
      prev.next := timer;
      timer.prev := prev;
      timer.next := tmp;
      if tmp != null {
        tmp.prev := timer;
      }
    }

    /** Link `timer` in behind position `j` - 1, where the loop of the inner add_timer
        has stopped. */
    method link(timer: UtilTimer, prev: UtilTimer, ghost j: nat)
      requires Valid() && timer !in nodes && 0 < j <= |nodes| && nodes[j - 1] == prev
      modifies this, nodes`prev, nodes`next, timer`prev, timer`next
      ensures Valid() && nodes == InsertAt(old(nodes), j, timer)
    {
      hide Chained, InsertAt;
      Distinct(nodes);
      NextIs(nodes, j - 1);
      var tmp := prev.next;
      set_links(timer, prev, tmp, nodes, j);
      Relinked(nodes, j, timer);
      Spread(nodes, j, timer);
      InsertedIndexwise(nodes, j, timer);
      if tmp == null {
        tail := timer;
      }
      nodes := InsertAt(nodes, j, timer);
    }

    /** The loop of the inner add_timer: the last node before the first later one. */
    method find_place(expire: int, lst_head: UtilTimer, ghost i: nat) returns (prev: UtilTimer, ghost k: nat)
      requires Valid() && i < |nodes| && nodes[i] == lst_head
      ensures k == LaterFrom(Entries(), expire, i + 1) && 0 < k <= |nodes| && prev == nodes[k - 1]
    {
      hide Chained, LaterFrom;
      prev, k := lst_head, i + 1;
      NextIs(nodes, i);
      var tmp := prev.next;
      while tmp != null && expire >= tmp.expire
        invariant i < k <= |nodes| && prev == nodes[k - 1] && tmp == After(nodes, k - 1)
        invariant forall m :: i + 1 <= m < k ==> nodes[m].expire <= expire
        decreases |nodes| - k
      {
        NextIs(nodes, k);
        prev := tmp;
        tmp := tmp.next;
        k := k + 1;
      }
      LaterFromIs(Entries(), expire, i + 1, k);
    }

    /** The inner add_timer: behind `lst_head`, in front of the first later node. */
    method insert_after(timer: UtilTimer, lst_head: UtilTimer, ghost i: nat)
      requires Valid() && timer !in nodes && i < |nodes| && nodes[i] == lst_head
      modifies this, nodes`prev, nodes`next, timer`prev, timer`next
      ensures Valid()
      ensures var s := old(Entries());
              Entries() == InsertAt(s, LaterFrom(s, timer.expire, i + 1), Entry(timer, timer.expire))
      ensures forall n :: n in nodes ==> n in old(nodes) || n == timer
    {
      hide Chained, EntriesOf, LaterFrom;
      ghost var k;
      var prev;
      prev, k := find_place(timer.expire, lst_head, i);
      EntriesOfInsert(nodes, k, timer);
      InsertMembers(nodes, k, timer);
      link(timer, prev, k);
    }

    /** `timer` in front of the whole list. */
    method push_front(timer: UtilTimer)
      requires Valid() && timer !in nodes && head != null && timer.prev == null
      modifies this, nodes`prev, timer`next
      ensures Valid() && nodes == InsertAt(old(nodes), 0, timer)
      ensures forall n :: n in nodes ==> n in old(nodes) || n == timer
    {
      timer.next := head;
      head.prev := timer;
      head := timer;
      Spread(nodes, 0, timer);
      nodes := InsertAt(nodes, 0, timer);
    }

    /** `timer` as the only node. */
    method start_with(timer: UtilTimer)
      requires head == null && timer.prev == null && timer.next == null
      modifies this
      ensures Valid() && Entries() == [Entry(timer, timer.expire)] && nodes == [timer]
    {
      head, tail, nodes := timer, timer, [timer];
    }

    method add_timer(timer: UtilTimer?)
      requires Valid() && (timer != null ==> timer !in nodes && timer.prev == null && timer.next == null)
      modifies this, nodes`prev, nodes`next
      modifies if timer == null then {} else {timer}`prev, if timer == null then {} else {timer}`next
      ensures Valid()
      ensures timer == null ==> nodes == old(nodes)
      ensures timer != null ==> Entries() == Added(old(Entries()), Entry(timer, timer.expire))
      ensures forall n :: n in nodes ==> n in old(nodes) || n == timer
    {
      hide EntriesOf, Chained, InsertAt;
      if timer == null {
        return;
      }
      ghost var was := nodes;
      if head == null {
        start_with(timer);
      } else if timer.expire < head.expire {
        push_front(timer);
        EntriesOfInsert(was, 0, timer);
      } else {
        insert_after(timer, head, 0);
      }
    }

    /** The pointer writes that take the node at `k` out; the node keeps its own. */
    static method bypass(timer: UtilTimer, ghost s: seq<UtilTimer>, ghost k: nat)
      requires Chained(s) && k < |s| && s[k] == timer
      modifies s`prev, s`next
      ensures timer.prev == Before(s, k) && timer.next == After(s, k)
      ensures Chained(RemoveAt(s, k))
    {
      Distinct(s);
      assert timer.prev == Before(s, k) && timer.next == After(s, k);
      if timer.prev != null {
        timer.prev.next := timer.next;
      }
      if timer.next != null {
        timer.next.prev := timer.prev;
      }
      Unlinked(s, k);
    }

    /** Take the node at `k` out: past its neighbours, and past head and tail. */
    method take_out(timer: UtilTimer, ghost k: nat)
      requires Valid() && k < |nodes| && nodes[k] == timer
      modifies this, nodes`prev, nodes`next
      ensures Valid() && nodes == RemoveAt(old(nodes), k) && timer !in nodes
      ensures timer.prev == Before(old(nodes), k) && timer.next == After(old(nodes), k)
    {
      hide Chained;
      Distinct(nodes);
      Without(nodes, k);
      hide RemoveAt;
      bypass(timer, nodes, k);
      RemoveEnds(nodes, k);
      if timer == head {
        head := timer.next;
      }
      if timer == tail {
        tail := timer.prev;
      }
      nodes := RemoveAt(nodes, k);
    }

    /** Take the node at `k` out and add it again somewhere behind its successor. */
    method move_later(timer: UtilTimer, tmp: UtilTimer, ghost k: nat)
      requires Valid() && k + 1 < |nodes| && nodes[k] == timer && nodes[k + 1] == tmp
      modifies this, nodes`prev, nodes`next
      ensures Valid()
      ensures var r := RemoveAt(old(Entries()), k);
              Entries() == InsertAt(r, LaterFrom(r, timer.expire, k + 1), Entry(timer, timer.expire))
      ensures forall n :: n in nodes ==> n in old(nodes)
    {
      hide Valid, EntriesOf, Chained, RemoveAt, InsertAt, LaterFrom;
      ghost var rest := RemoveAt(nodes, k);
      EntriesOfRemove(nodes, k);
      RemovedIndexwise(nodes, k);
      RemoveEnds(nodes, k);
      ghost var entries := EntriesOf(rest);
      take_out(timer, k);
      assert nodes == rest && EntriesOf(rest) == entries;
      insert_after(timer, tmp, k);
    }

    /** After `expire` of the node at `k` has been changed. */
    method adjust_timer(timer: UtilTimer?, ghost k: nat)
      requires Valid() && (timer != null ==> k < |nodes| && nodes[k] == timer)
      modifies this, nodes`prev, nodes`next
      ensures Valid()
      ensures timer == null ==> nodes == old(nodes)
      ensures timer != null ==> Entries() == Adjusted(old(Entries()), k)
      ensures forall n :: n in nodes ==> n in old(nodes)
    {
      if timer == null {
        return;
      }
      assert timer.next == After(nodes, k);
      hide EntriesOf, Chained;
      var tmp := timer.next;
      if tmp == null || timer.expire < tmp.expire {
        return;
      }
      move_later(timer, tmp, k);
    }

    method del_timer(timer: UtilTimer?, ghost k: nat)
      requires Valid() && (timer != null ==> k < |nodes| && nodes[k] == timer)
      modifies this, nodes`prev, nodes`next
      ensures Valid()
      ensures timer == null ==> nodes == old(nodes)
      ensures timer != null ==> nodes == RemoveAt(old(nodes), k) && Entries() == RemoveAt(old(Entries()), k)
      ensures timer != null ==> timer !in nodes
    {
      hide Valid, Chained, EntriesOf, RemoveAt, Before, After;
      if timer == null {
        return;
      }
      ghost var rest := RemoveAt(nodes, k);
      EntriesOfRemove(nodes, k);
      ghost var entries := EntriesOf(rest);
      take_out(timer, k);
      assert EntriesOf(rest) == entries;
    }

    /** One round of tick: call back, then the next node is the head. */
    method fire_head(conns: Connections)
      requires Valid() && nodes != []
      modifies this`head, this`nodes, nodes`prev, conns`open, conns`m_user_count, conns`closed
      ensures Valid() && nodes == old(nodes)[1..]
      ensures conns.closed == old(conns.closed) + [old(nodes)[0].sockfd]
      ensures conns.m_user_count == old(conns.m_user_count) - 1
      ensures conns.open == old(conns.open) - {old(nodes)[0].sockfd}
    {
      conns.cb_func(head.sockfd);
      assert head.next == After(nodes, 0);
      head := head.next;
      if head != null {
        head.prev := null;
      }
      nodes := nodes[1..];
    }

    /** `tail` is left alone, as in the source. */
    method tick(cur: int, conns: Connections)
      requires Valid()
      modifies this`head, this`nodes, nodes`prev, conns`open, conns`m_user_count, conns`closed
      ensures Valid()
      ensures var n := Due(old(Entries()), cur);
              && nodes == old(nodes)[n..]
              && conns.closed == old(conns.closed) + Descriptors(old(nodes)[..n])
              && conns.m_user_count == old(conns.m_user_count) - n
              && conns.open == old(conns.open) - DescriptorSet(old(nodes)[..n])
      ensures nodes != [] ==> nodes[0].expire > cur
    {
      hide Chained, Descriptors, DescriptorSet, EntriesOf, LaterFrom;
      ghost var was, n := nodes, 0;
      NoneYet(was);
      while head != null && head.expire <= cur
        invariant 0 <= n <= |was| && nodes == was[n..] && Valid()
        invariant forall i :: 0 <= i < n ==> was[i].expire <= cur
        invariant conns.closed == old(conns.closed) + Descriptors(was[..n])
        invariant conns.m_user_count == old(conns.m_user_count) - n
        invariant conns.open == old(conns.open) - DescriptorSet(was[..n])
        decreases |was| - n
      {
        fire_head(conns);
        OneMore(was, n);
        n := n + 1;
      }
      LaterFromIs(EntriesOf(was), cur, 0, n);
    }
  }

  lemma NoneYet(s: seq<UtilTimer>)
    ensures s == s[0..] && Descriptors(s[..0]) == [] && DescriptorSet(s[..0]) == {}
  {
  }

  lemma OneMore(s: seq<UtilTimer>, n: nat)
    requires n < |s|
    ensures Descriptors(s[..n + 1]) == Descriptors(s[..n]) + [s[n].sockfd]
    ensures DescriptorSet(s[..n + 1]) == DescriptorSet(s[..n]) + {s[n].sockfd}
    ensures s[n..][0] == s[n] && s[n..][1..] == s[n + 1..]
  {
    assert forall i :: 0 <= i < n ==> s[..n + 1][i] == s[..n][i];
    assert s[..n + 1][n] == s[n];
  }

  function DescriptorSet(s: seq<UtilTimer>): set<int> {
    set i | 0 <= i < |s| :: s[i].sockfd
  }

  function Descriptors(s: seq<UtilTimer>): seq<int> {
    seq(|s|, i requires 0 <= i < |s| => s[i].sockfd)
  }

  lemma NextIs(s: seq<UtilTimer>, k: nat)
    requires Chained(s) && k < |s|
    ensures s[k].next == After(s, k)
  {
  }

  lemma Distinct(s: seq<UtilTimer>)
    requires Chained(s)
    ensures forall i, k :: 0 <= i < k < |s| ==> s[i] != s[k]
  {
  }

  /** A chain in which the node at `k` has been bypassed. */
  lemma Unlinked(s: seq<UtilTimer>, k: nat)
    requires forall i, j :: 0 <= i < j < |s| ==> s[i] != s[j]
    requires k < |s|
    requires k > 0 ==> s[k - 1].next == After(s, k)
    requires k + 1 < |s| ==> s[k + 1].prev == Before(s, k)
    requires forall i {:trigger s[i].prev} :: 0 <= i < |s| && i != k + 1 ==> s[i].prev == Before(s, i)
    requires forall i {:trigger s[i].next} :: 0 <= i < |s| && i != k - 1 ==> s[i].next == After(s, i)
    ensures Chained(RemoveAt(s, k))
  {
    var r := RemoveAt(s, k);
    forall i | 0 <= i < |r|
      ensures r[i].prev == Before(r, i) && r[i].next == After(r, i)
    {
      var i' := if i < k then i else i + 1;
      assert r[i] == s[i'];
      assert i' != k + 1 ==> s[i'].prev == Before(s, i');
      assert i' != k - 1 ==> s[i'].next == After(s, i');
    }
  }

  lemma Without(s: seq<UtilTimer>, k: nat)
    requires k < |s| && forall i, j :: 0 <= i < j < |s| ==> s[i] != s[j]
    ensures s[k] !in RemoveAt(s, k)
  {
  }

  lemma RemoveEnds(s: seq<UtilTimer>, k: nat)
    requires k < |s|
    ensures var r := RemoveAt(s, k);
            && |r| == |s| - 1
            && (forall n :: n in r ==> n in s)
            && (r != [] ==> r[0] == (if k == 0 then s[1] else s[0]))
            && (r != [] ==> r[|r| - 1] == (if k == |s| - 1 then s[|s| - 2] else s[|s| - 1]))
  {
  }

  /** Two lists of entries are the same if they are so index by index. */
  lemma EntriesIndexwise(s: seq<UtilTimer>, r: seq<Entry<UtilTimer>>)
    requires |r| == |s| && forall i :: 0 <= i < |s| ==> r[i] == Entry(s[i], s[i].expire)
    ensures EntriesOf(s) == r
  {
    hide EntriesOf;
  }

  lemma EntriesOfRemove(s: seq<UtilTimer>, k: nat)
    requires k < |s|
    ensures EntriesOf(RemoveAt(s, k)) == RemoveAt(EntriesOf(s), k)
  {
    hide EntriesOf;
    RemovedIndexwise(s, k);
    RemovedIndexwise(EntriesOf(s), k);
    hide RemoveAt;
    EntriesIndexwise(RemoveAt(s, k), RemoveAt(EntriesOf(s), k));
  }

  lemma InsertMembers(s: seq<UtilTimer>, j: nat, e: UtilTimer)
    requires j <= |s|
    ensures forall n :: n in InsertAt(s, j, e) ==> n in s || n == e
  {
  }

  lemma EntriesOfInsert(s: seq<UtilTimer>, j: nat, e: UtilTimer)
    requires j <= |s|
    ensures EntriesOf(InsertAt(s, j, e)) == InsertAt(EntriesOf(s), j, Entry(e, e.expire))
  {
    hide EntriesOf;
    InsertedIndexwise(s, j, e);
    InsertedIndexwise(EntriesOf(s), j, Entry(e, e.expire));
    hide InsertAt;
    EntriesIndexwise(InsertAt(s, j, e), InsertAt(EntriesOf(s), j, Entry(e, e.expire)));
  }

  lemma InsertedIndexwise<T>(s: seq<T>, j: nat, e: T)
    requires j <= |s|
    ensures var r := InsertAt(s, j, e);
            && |r| == |s| + 1
            && forall i {:trigger r[i]} :: 0 <= i <= |s| ==>
                 r[i] == if i < j then s[i] else if i == j then e else s[i - 1]
  {
  }

  lemma RemovedIndexwise<T>(s: seq<T>, k: nat)
    requires k < |s|
    ensures var r := RemoveAt(s, k);
            && |r| == |s| - 1
            && forall i {:trigger r[i]} :: 0 <= i < |r| ==> r[i] == if i < k then s[i] else s[i + 1]
  {
  }

  lemma {:induction false} LaterFromIs<T>(s: seq<Entry<T>>, expire: int, i: nat, j: nat)
    requires i <= j <= |s|
    requires forall k :: i <= k < j ==> s[k].expire <= expire
    requires j < |s| ==> expire < s[j].expire
    ensures LaterFrom(s, expire, i) == j
    decreases j - i
  {
    if i < j {
      LaterFromIs(s, expire, i + 1, j);
    }
  }

  lemma Spread(s: seq<UtilTimer>, j: nat, e: UtilTimer)
    requires j <= |s| && e !in s
    requires forall i, k :: 0 <= i < k < |s| ==> s[i] != s[k]
    ensures var r := InsertAt(s, j, e);
            && (forall i {:trigger r[i]} :: 0 <= i < j ==> r[i] == s[i]) && r[j] == e
            && (forall i {:trigger r[i]} :: j < i < |r| ==> r[i] == s[i - 1])
            && (forall i, k :: 0 <= i < k < |r| ==> r[i] != r[k])
  {
  }

  /** A chain in which four pointers have been set to take `e` in at position `j`. */
  lemma Relinked(s: seq<UtilTimer>, j: nat, e: UtilTimer)
    requires forall i, k :: 0 <= i < k < |s| ==> s[i] != s[k]
    requires 0 < j <= |s| && e !in s
    requires s[j - 1].next == e && e.prev == s[j - 1] && e.next == After(s, j - 1)
    requires j < |s| ==> s[j].prev == e
    requires forall i {:trigger s[i].prev} :: 0 <= i < |s| && i != j ==> s[i].prev == Before(s, i)
    requires forall i {:trigger s[i].next} :: 0 <= i < |s| && i != j - 1 ==> s[i].next == After(s, i)
    ensures Chained(InsertAt(s, j, e))
  {
    Spread(s, j, e);
    var r := InsertAt(s, j, e);
    forall i | 0 <= i < |r|
      ensures r[i].prev == Before(r, i) && r[i].next == After(r, i)
    {
      if i < j {
        assert i != j ==> s[i].prev == Before(s, i);
      } else if i > j {
        assert s[i - 1].next == After(s, i - 1);
      }
    }
  }
}
