/** The timer list as a sequence: what each operation of sort_timer_lst makes of it. */
module TimerSequence {

  /** A node of the list and the time it expires. */
  datatype Entry<T> = Entry(node: T, expire: int)

  ghost predicate Sorted<T>(s: seq<Entry<T>>) {
    forall i, j :: 0 <= i < j < |s| ==> s[i].expire <= s[j].expire
  }

  /** Where the inner add_timer stops: the first position from `i` with a later entry. */
  function LaterFrom<T>(s: seq<Entry<T>>, expire: int, i: nat): (j: nat)
    requires i <= |s|
    ensures i <= j <= |s|
    ensures forall k :: i <= k < j ==> s[k].expire <= expire
    ensures j < |s| ==> expire < s[j].expire
    decreases |s| - i
  {
    if i == |s| || expire < s[i].expire then i else LaterFrom(s, expire, i + 1)
  }

  function InsertAt<T>(s: seq<T>, j: nat, e: T): (r: seq<T>)
    requires j <= |s|
    ensures |r| == |s| + 1
  {
    s[..j] + [e] + s[j..]
  }

  function RemoveAt<T>(s: seq<T>, k: nat): (r: seq<T>)
    requires k < |s|
    ensures |r| == |s| - 1
  {
    s[..k] + s[k + 1..]
  }

  /** add_timer */
  function Added<T>(s: seq<Entry<T>>, e: Entry<T>): (r: seq<Entry<T>>)
    ensures |r| == |s| + 1
  {
    if s == [] then [e]
    else if e.expire < s[0].expire then InsertAt(s, 0, e)
    else InsertAt(s, LaterFrom(s, e.expire, 1), e)
  }

  /** adjust_timer on the entry at `k`, whose expire has just been changed. */
  function Adjusted<T>(s: seq<Entry<T>>, k: nat): seq<Entry<T>>
    requires k < |s|
  {
    if k + 1 == |s| || s[k].expire < s[k + 1].expire then s
    else
      var r := RemoveAt(s, k);
      InsertAt(r, LaterFrom(r, s[k].expire, k + 1), s[k])
  }

  /** How many entries a tick at `now` fires. */
  function Due<T>(s: seq<Entry<T>>, now: int): (n: nat)
    ensures n <= |s|
    ensures forall k :: 0 <= k < n ==> s[k].expire <= now
    ensures n < |s| ==> now < s[n].expire
  {
    LaterFrom(s, now, 0)
  }

  // --- on a sorted list -------------------------------------------------------------

  /** On any list, adding is inserting at the first later entry. */
  lemma AddedAt<T>(s: seq<Entry<T>>, e: Entry<T>)
    ensures Added(s, e) == InsertAt(s, LaterFrom(s, e.expire, 0), e)
  {
    if s == [] {
      assert InsertAt(s, 0, e) == [e];
    }
  }

  lemma InsertSorted<T>(s: seq<Entry<T>>, j: nat, e: Entry<T>)
    requires Sorted(s) && j <= |s|
    requires forall k :: 0 <= k < j ==> s[k].expire <= e.expire
    requires forall k :: j <= k < |s| ==> e.expire <= s[k].expire
    ensures Sorted(InsertAt(s, j, e))
  {
  }

  lemma InsertContents<T>(s: seq<T>, j: nat, e: T)
    requires j <= |s|
    ensures multiset(InsertAt(s, j, e)) == multiset(s) + multiset{e}
  {
    assert s == s[..j] + s[j..];
  }

  lemma RemoveContents<T>(s: seq<T>, k: nat)
    requires k < |s|
    ensures multiset(s) == multiset(RemoveAt(s, k)) + multiset{s[k]}
  {
    assert s == s[..k] + [s[k]] + s[k + 1..];
  }

  /** On a sorted list no entry from the first later one on expires at or before. */
  lemma LaterStaysLater<T>(s: seq<Entry<T>>, expire: int, i: nat)
    requires Sorted(s) && i <= |s|
    ensures forall k :: LaterFrom(s, expire, i) <= k < |s| ==> expire < s[k].expire
  {
  }

  /** Adding keeps the order: the entry goes behind exactly those that expire no later
      than it. */
  lemma AddKeepsOrder<T>(s: seq<Entry<T>>, e: Entry<T>)
    requires Sorted(s)
    ensures Sorted(Added(s, e)) && multiset(Added(s, e)) == multiset(s) + multiset{e}
    ensures var j := LaterFrom(s, e.expire, 0);
            && Added(s, e) == InsertAt(s, j, e)
            && forall k :: 0 <= k < |s| ==> (k < j <==> s[k].expire <= e.expire)
  {
    var j := LaterFrom(s, e.expire, 0);
    AddedAt(s, e);
    LaterStaysLater(s, e.expire, 0);
    hide Added, InsertAt;
    InsertSorted(s, j, e);
    InsertContents(s, j, e);
  }

  /** Sorted but for the entry at `k`, whose expire has been changed. */
  ghost predicate SortedExcept<T>(s: seq<Entry<T>>, k: nat)
    requires k < |s|
  {
    Sorted(RemoveAt(s, k))
  }

  lemma OthersSorted<T>(s: seq<Entry<T>>, k: nat, i: nat, j: nat)
    requires k < |s| && SortedExcept(s, k) && i < j < |s| && i != k && j != k
    ensures s[i].expire <= s[j].expire
  {
    var r := RemoveAt(s, k);
    var i', j' := if i < k then i else i - 1, if j < k then j else j - 1;
    assert r[i'] == s[i] && r[j'] == s[j];
  }

  /** adjust_timer repairs the order iff the new expire is not below the predecessor's:
      it only ever moves a timer towards the tail. */
  lemma AdjustRepairsExactly<T>(s: seq<Entry<T>>, k: nat)
    requires k < |s| && SortedExcept(s, k)
    ensures multiset(Adjusted(s, k)) == multiset(s)
    ensures Sorted(Adjusted(s, k)) <==> k == 0 || s[k - 1].expire <= s[k].expire
  {
    var r, e := RemoveAt(s, k), s[k];
    RemoveContents(s, k);
    if k + 1 == |s| || e.expire < s[k + 1].expire {
      AdjustStays(s, k);
    } else {
      var j := LaterFrom(r, e.expire, k + 1);
      InsertContents(r, j, e);
      LaterStaysLater(r, e.expire, k + 1);
      assert r[k] == s[k + 1];
      if k > 0 {
        assert r[k - 1] == s[k - 1];
      }
      InsertSorted(r, j, e);
    }
  }

  lemma AdjustStays<T>(s: seq<Entry<T>>, k: nat)
    requires k < |s| && SortedExcept(s, k)
    requires k + 1 == |s| || s[k].expire < s[k + 1].expire
    ensures Sorted(s) <==> k == 0 || s[k - 1].expire <= s[k].expire
  {
    if k == 0 || s[k - 1].expire <= s[k].expire {
      forall i, j | 0 <= i < j < |s|
        ensures s[i].expire <= s[j].expire
      {
        if i != k && j != k {
          OthersSorted(s, k, i, j);
        } else if j == k && i < k - 1 {
          OthersSorted(s, k, i, k - 1);
        } else if i == k && j > k + 1 {
          OthersSorted(s, k, k + 1, j);
        }
      }
    }
  }

  /** A tick fires exactly the entries that are due, in order, and leaves the rest. */
  lemma TickSplits<T>(s: seq<Entry<T>>, now: int)
    requires Sorted(s)
    ensures var n := Due(s, now);
            && (forall k :: 0 <= k < |s| ==> (k < n <==> s[k].expire <= now))
            && Sorted(s[..n]) && Sorted(s[n..])
  {
    LaterStaysLater(s, now, 0);
  }

  lemma RemoveKeepsOrder<T>(s: seq<Entry<T>>, k: nat)
    requires Sorted(s) && k < |s|
    ensures Sorted(RemoveAt(s, k))
  {
  }

  // --- any run of operations --------------------------------------------------------

  /** An operation on the list: add a new node, raise the expire of the node at k and
      adjust it, delete the node at k, tick. */
  datatype Operation<T> = Add(entry: Entry<T>) | Raise(k: nat, expire: int) | Delete(k: nat) | TickAt(now: int)

  ghost predicate Allowed<T>(s: seq<Entry<T>>, op: Operation<T>) {
    match op
    case Add(_) => true
    case Raise(k, expire) => k < |s| && s[k].expire <= expire
    case Delete(k) => k < |s|
    case TickAt(_) => true
  }

  function Apply<T>(s: seq<Entry<T>>, op: Operation<T>): seq<Entry<T>>
    requires Allowed(s, op)
  {
    match op
    case Add(e) => Added(s, e)
    case Raise(k, expire) => Adjusted(s[k := s[k].(expire := expire)], k)
    case Delete(k) => RemoveAt(s, k)
    case TickAt(now) => s[Due(s, now)..]
  }

  /** The nodes an operation brings, and those it takes away. */
  function Brought<T>(op: Operation<T>): seq<T> { if op.Add? then [op.entry.node] else [] }

  function Taken<T>(s: seq<Entry<T>>, op: Operation<T>): seq<T>
    requires Allowed(s, op)
  {
    match op
    case Delete(k) => [s[k].node]
    case TickAt(now) => Nodes(s[..Due(s, now)])
    case _ => []
  }

  function Nodes<T>(s: seq<Entry<T>>): (r: seq<T>)
    ensures |r| == |s| && forall i :: 0 <= i < |s| ==> r[i] == s[i].node
  {
    seq(|s|, i requires 0 <= i < |s| => s[i].node)
  }

  ghost predicate AllAllowed<T>(s: seq<Entry<T>>, ops: seq<Operation<T>>)
    decreases |ops|
  {
    ops != [] ==> Allowed(s, ops[0]) && AllAllowed(Apply(s, ops[0]), ops[1..])
  }

  function ApplyAll<T>(s: seq<Entry<T>>, ops: seq<Operation<T>>): seq<Entry<T>>
    requires AllAllowed(s, ops)
    decreases |ops|
  {
    if ops == [] then s else ApplyAll(Apply(s, ops[0]), ops[1..])
  }

  function AllBrought<T>(ops: seq<Operation<T>>): seq<T> {
    if ops == [] then [] else Brought(ops[0]) + AllBrought(ops[1..])
  }

  function AllTaken<T>(s: seq<Entry<T>>, ops: seq<Operation<T>>): seq<T>
    requires AllAllowed(s, ops)
    decreases |ops|
  {
    if ops == [] then [] else Taken(s, ops[0]) + AllTaken(Apply(s, ops[0]), ops[1..])
  }

  lemma NodesInserted<T>(s: seq<Entry<T>>, j: nat, e: Entry<T>)
    requires j <= |s|
    ensures multiset(Nodes(InsertAt(s, j, e))) == multiset(Nodes(s)) + multiset{e.node}
  {
    assert Nodes(InsertAt(s, j, e)) == InsertAt(Nodes(s), j, e.node);
    hide Nodes, InsertAt;
    InsertContents(Nodes(s), j, e.node);
  }

  lemma NodesRemoved<T>(s: seq<Entry<T>>, k: nat)
    requires k < |s|
    ensures multiset(Nodes(s)) == multiset(Nodes(RemoveAt(s, k))) + multiset{s[k].node}
  {
    assert Nodes(RemoveAt(s, k)) == RemoveAt(Nodes(s), k);
    hide Nodes, RemoveAt;
    RemoveContents(Nodes(s), k);
  }

  lemma NodesAdjusted<T>(s: seq<Entry<T>>, k: nat)
    requires k < |s|
    ensures multiset(Nodes(Adjusted(s, k))) == multiset(Nodes(s))
  {
    hide Nodes, InsertAt, RemoveAt, LaterFrom;
    NodesRemoved(s, k);
    if !(k + 1 == |s| || s[k].expire < s[k + 1].expire) {
      NodesInserted(RemoveAt(s, k), LaterFrom(RemoveAt(s, k), s[k].expire, k + 1), s[k]);
    }
  }

  lemma NodesSplit<T>(s: seq<Entry<T>>, n: nat)
    requires n <= |s|
    ensures multiset(Nodes(s)) == multiset(Nodes(s[n..])) + multiset(Nodes(s[..n]))
  {
    assert Nodes(s) == Nodes(s[..n]) + Nodes(s[n..]);
  }

  lemma RaiseSorted<T>(s: seq<Entry<T>>, k: nat, expire: int)
    requires Sorted(s) && k < |s| && s[k].expire <= expire
    ensures Sorted(Adjusted(s[k := s[k].(expire := expire)], k))
  {
    var m := s[k := s[k].(expire := expire)];
    assert RemoveAt(m, k) == RemoveAt(s, k);
    RemoveKeepsOrder(s, k);
    hide Adjusted, RemoveAt;
    AdjustRepairsExactly(m, k);
  }

  lemma ApplyKeeps<T>(s: seq<Entry<T>>, op: Operation<T>)
    requires Sorted(s) && Allowed(s, op)
    ensures Sorted(Apply(s, op))
    ensures multiset(Nodes(Apply(s, op))) + multiset(Taken(s, op)) == multiset(Nodes(s)) + multiset(Brought(op))
  {
    hide Nodes, InsertAt, RemoveAt, LaterFrom, Adjusted, Added, Sorted, Due;
    match op {
      case Add(e) =>
        AddKeepsOrder(s, e);
        NodesInserted(s, LaterFrom(s, e.expire, 0), e);
      case Raise(k, expire) =>
        RaiseSorted(s, k, expire);
        var m := s[k := s[k].(expire := expire)];
        NodesAdjusted(m, k);
        assert Nodes(m) == Nodes(s);
      case Delete(k) =>
        RemoveKeepsOrder(s, k);
        NodesRemoved(s, k);
      case TickAt(now) =>
        TickSplits(s, now);
        NodesSplit(s, Due(s, now));
    }
  }

  lemma Rebalance<T>(a: multiset<T>, t: multiset<T>, tt: multiset<T>, m: multiset<T>, b: multiset<T>, bb: multiset<T>,
                     s: multiset<T>)
    requires a + tt == m + bb && m + t == s + b
    ensures a + (t + tt) == s + (b + bb)
  {
    assert a + (t + tt) == (a + tt) + t == (m + bb) + t == (m + t) + bb;
  }

  lemma Sums<T>(a: seq<T>, b: seq<T>)
    ensures multiset(a + b) == multiset(a) + multiset(b)
  {
  }

  /** Over any run of add, raise and adjust, delete and tick the list stays in order of
      expiry, and what it holds is what was brought less what was taken. */
  lemma {:induction false} RunKeepsOrder<T>(s: seq<Entry<T>>, ops: seq<Operation<T>>)
    requires Sorted(s) && AllAllowed(s, ops)
    ensures var r := ApplyAll(s, ops);
            && Sorted(r)
            && multiset(Nodes(r)) + multiset(AllTaken(s, ops)) == multiset(Nodes(s)) + multiset(AllBrought(ops))
    decreases |ops|
  {
    hide Sorted, Nodes, Allowed, Apply, Taken, Brought;
    if ops != [] {
      var m := Apply(s, ops[0]);
      ApplyKeeps(s, ops[0]);
      RunKeepsOrder(m, ops[1..]);
      Sums(Taken(s, ops[0]), AllTaken(m, ops[1..]));
      Sums(Brought(ops[0]), AllBrought(ops[1..]));
      Rebalance(multiset(Nodes(ApplyAll(s, ops))), multiset(Taken(s, ops[0])), multiset(AllTaken(m, ops[1..])),
                multiset(Nodes(m)), multiset(Brought(ops[0])), multiset(AllBrought(ops[1..])), multiset(Nodes(s)));
    }
  }
}
