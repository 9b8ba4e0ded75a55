/** The table of users: loaded from the database, then read and extended by any number of
    threads that run do_request at the same time. */
module UserTable {

  type Name = string
  type Password = string
  type Pair = (Name, Password)

  datatype Page = WelcomePage | LogErrorPage | LogPage | RegisterErrorPage

  /** A thread in the part of do_request behind the form. */
  datatype Client =
    | Idle
    | Registering(pair: Pair)  // before users.find
    | Inserting(pair: Pair)    // not found; about to lock m_lock
    | LoggingIn(pair: Pair)    // before users.find
    | Comparing(pair: Pair)    // found; before users[name] == password

  /** A login, a registration that found the name taken, or one that went through, with
      what mysql_query returned. */
  datatype Kind = LoginTried | NameFound | Entered(result: int)

  /** A finished request, and how many registrations had gone through when it looked the
      name up. */
  datatype Answer = Answer(pair: Pair, page: Page, seen: nat, kind: Kind)

  datatype System = System(
    users: map<Name, Password>,
    clients: seq<Client>,
    looked: seq<nat>,        // per client: |attempts| when it last called users.find
    attempts: seq<Pair>,     // the calls of users.insert, in order
    answers: seq<Answer>)

  datatype Act =
    | Register(c: nat, pair: Pair)
    | FindFree(c: nat)
    | Insert(c: nat, result: int)  // result is what mysql_query returns
    | Login(c: nat, pair: Pair)
    | FindName(c: nat)
    | Compare(c: nat)

  /** users[temp1] = temp2 over the rows of the database. */
  function Loaded(rows: seq<Pair>): map<Name, Password> {
    if rows == [] then map[]
    else Loaded(rows[..|rows| - 1])[rows[|rows| - 1].0 := rows[|rows| - 1].1]
  }

  /** users.insert keeps what is there. */
  function Inserted(users: map<Name, Password>, p: Pair): map<Name, Password> {
    if p.0 in users then users else users[p.0 := p.1]
  }

  function Init(rows: seq<Pair>, threads: nat): System {
    System(Loaded(rows), seq(threads, _ => Idle), seq(threads, _ => 0), [], [])
  }

  ghost predicate Enabled(s: System, a: Act) {
    |s.looked| == |s.clients| &&
    match a
    case Register(c, _) => c < |s.clients| && s.clients[c].Idle?
    case FindFree(c) => c < |s.clients| && s.clients[c].Registering?
    case Insert(c, _) => c < |s.clients| && s.clients[c].Inserting?
    case Login(c, _) => c < |s.clients| && s.clients[c].Idle?
    case FindName(c) => c < |s.clients| && s.clients[c].LoggingIn?
    case Compare(c) => c < |s.clients| && s.clients[c].Comparing?
  }

  function Answered(s: System, c: nat, page: Page, seen: nat, kind: Kind): System
    requires c < |s.clients| && !s.clients[c].Idle?
  {
    var answer := Answer(s.clients[c].pair, page, seen, kind);
    s.(clients := s.clients[c := Idle], answers := s.answers + [answer])
  }

  function Moved(s: System, c: nat, to: Client): System
    requires c < |s.clients| == |s.looked|
  {
    s.(clients := s.clients[c := to], looked := s.looked[c := |s.attempts|])
  }

  function Step(s: System, a: Act): System
    requires Enabled(s, a)
  {
    match a
    case Register(c, pair) => s.(clients := s.clients[c := Registering(pair)])
    case FindFree(c) =>
      var pair := s.clients[c].pair;
      if pair.0 in s.users then Answered(s, c, RegisterErrorPage, |s.attempts|, NameFound)
      else Moved(s, c, Inserting(pair))
    case Insert(c, result) =>
      var pair := s.clients[c].pair;
      Answered(s, c, if result == 0 then LogPage else RegisterErrorPage, s.looked[c], Entered(result))
      .(users := Inserted(s.users, pair), attempts := s.attempts + [pair])
    case Login(c, pair) => s.(clients := s.clients[c := LoggingIn(pair)])
    case FindName(c) =>
      var pair := s.clients[c].pair;
      if pair.0 in s.users then Moved(s, c, Comparing(pair)) else Answered(s, c, LogErrorPage, |s.attempts|, LoginTried)
    case Compare(c) =>
      var pair := s.clients[c].pair;
      if pair.0 in s.users && s.users[pair.0] == pair.1 then Answered(s, c, WelcomePage, s.looked[c], LoginTried)
      else Answered(s, c, LogErrorPage, s.looked[c], LoginTried)
  }

  ghost predicate Run(s: System, acts: seq<Act>)
    decreases |acts|
  {
    acts != [] ==> Enabled(s, acts[0]) && Run(Step(s, acts[0]), acts[1..])
  }

  ghost function Reached(s: System, acts: seq<Act>): System
    requires Run(s, acts)
    decreases |acts|
  {
    if acts == [] then s else Reached(Step(s, acts[0]), acts[1..])
  }

  // --- what a name's password is, said without the table --------------------------------------

  /** The first of the pairs that has the name. */
  ghost predicate FirstPair(pairs: seq<Pair>, name: Name, password: Password) {
    exists i :: 0 <= i < |pairs| && pairs[i] == (name, password) && forall k :: 0 <= k < i ==> pairs[k].0 != name
  }

  ghost predicate LastPair(pairs: seq<Pair>, name: Name, password: Password) {
    exists i :: 0 <= i < |pairs| && pairs[i] == (name, password) && forall k :: i < k < |pairs| ==> pairs[k].0 != name
  }

  predicate Named(pairs: seq<Pair>, name: Name) {
    exists i :: 0 <= i < |pairs| && pairs[i].0 == name
  }

  /** The last row of the database counts; without one, the first registration. */
  ghost predicate IsPassword(rows: seq<Pair>, attempts: seq<Pair>, name: Name, password: Password) {
    LastPair(rows, name, password) || (!Named(rows, name) && FirstPair(attempts, name, password))
  }

  lemma {:induction false} LoadedRows(rows: seq<Pair>, name: Name, password: Password)
    ensures name in Loaded(rows) <==> Named(rows, name)
    ensures name in Loaded(rows) && Loaded(rows)[name] == password <==> LastPair(rows, name, password)
  {
    if rows != [] {
      var front, n := rows[..|rows| - 1], |rows| - 1;
      LoadedRows(front, name, password);
      if rows[n].0 == name {
        assert Named(rows, name);
        if rows[n].1 == password {
          assert rows[n] == (name, password);
        }
      } else {
        if Named(front, name) {
          var i :| 0 <= i < |front| && front[i].0 == name;
          assert rows[i].0 == name;
        }
        if LastPair(front, name, password) {
          var i :| 0 <= i < |front| && front[i] == (name, password)
            && forall k :: i < k < |front| ==> front[k].0 != name;
          assert rows[i] == (name, password);
          assert forall k :: i < k < |rows| ==> rows[k].0 != name;
        }
        if LastPair(rows, name, password) {
          var i :| 0 <= i < |rows| && rows[i] == (name, password)
            && forall k :: i < k < |rows| ==> rows[k].0 != name;
          assert front[i] == (name, password);
          assert forall k :: i < k < |front| ==> front[k].0 != name;
        }
      }
    }
  }

  /** users is what the rows and the registrations so far make it. */
  ghost predicate Meant(rows: seq<Pair>, attempts: seq<Pair>, users: map<Name, Password>) {
    && (forall name :: name in users <==> Named(rows, name) || Named(attempts, name))
    && forall name, password :: name in users && users[name] == password <==> IsPassword(rows, attempts, name, password)
  }

  lemma NamedMore(attempts: seq<Pair>, p: Pair, name: Name)
    ensures Named(attempts + [p], name) <==> Named(attempts, name) || p.0 == name
  {
    var more := attempts + [p];
    assert more[|attempts|] == p;
    assert forall i :: 0 <= i < |attempts| ==> more[i] == attempts[i];
  }

  lemma FirstMore(attempts: seq<Pair>, p: Pair, name: Name, password: Password)
    ensures FirstPair(attempts + [p], name, password)
            <==> FirstPair(attempts, name, password) || (!Named(attempts, name) && p == (name, password))
  {
    var more := attempts + [p];
    assert more[|attempts|] == p;
    assert forall i :: 0 <= i < |attempts| ==> more[i] == attempts[i];
    if !Named(attempts, name) && p == (name, password) {
      assert forall k :: 0 <= k < |attempts| ==> more[k].0 != name;
    }
    if FirstPair(attempts, name, password) {
      var i :| 0 <= i < |attempts| && attempts[i] == (name, password)
               && forall k :: 0 <= k < i ==> attempts[k].0 != name;
      assert more[i] == (name, password) && forall k :: 0 <= k < i ==> more[k].0 != name;
    }
    if FirstPair(more, name, password) {
      var i :| 0 <= i < |more| && more[i] == (name, password) && forall k :: 0 <= k < i ==> more[k].0 != name;
      if i < |attempts| {
        assert attempts[i] == (name, password) && forall k :: 0 <= k < i ==> attempts[k].0 != name;
      } else {
        assert forall k :: 0 <= k < |attempts| ==> attempts[k].0 != name;
      }
    }
  }

  lemma HasName(rows: seq<Pair>, attempts: seq<Pair>, name: Name, password: Password)
    ensures LastPair(rows, name, password) ==> Named(rows, name)
    ensures FirstPair(attempts, name, password) ==> Named(attempts, name)
  {
  }

  lemma InsertMeant(rows: seq<Pair>, attempts: seq<Pair>, users: map<Name, Password>, p: Pair)
    requires Meant(rows, attempts, users)
    ensures Meant(rows, attempts + [p], Inserted(users, p))
  {
    forall name
      ensures name in Inserted(users, p) <==> Named(rows, name) || Named(attempts + [p], name)
    {
      NamedMore(attempts, p, name);
    }
    forall name, password
      ensures name in Inserted(users, p) && Inserted(users, p)[name] == password
              <==> IsPassword(rows, attempts + [p], name, password)
    {
      FirstMore(attempts, p, name, password);
      HasName(rows, attempts, name, password);
      assert name in users <==> Named(rows, name) || Named(attempts, name);
      assert name in users && users[name] == password <==> IsPassword(rows, attempts, name, password);
      hide FirstPair, LastPair, Named;
    }
  }

  lemma MeantAtStart(rows: seq<Pair>)
    ensures Meant(rows, [], Loaded(rows))
  {
    forall name, password
      ensures name in Loaded(rows) <==> Named(rows, name) || Named([], name)
      ensures name in Loaded(rows) && Loaded(rows)[name] == password <==> IsPassword(rows, [], name, password)
    {
      LoadedRows(rows, name, password);
    }
  }

  // --- every interleaving ------------------------------------------------------------------------

  /** A registration or login is answered by what was there when it looked. */
  ghost predicate RightAnswer(rows: seq<Pair>, attempts: seq<Pair>, a: Answer) {
    && a.seen <= |attempts|
    && var before := attempts[..a.seen];
       match a.kind
       case LoginTried =>
         a.page == if IsPassword(rows, before, a.pair.0, a.pair.1) then WelcomePage else LogErrorPage
       case NameFound => a.page == RegisterErrorPage && (Named(rows, a.pair.0) || Named(before, a.pair.0))
       case Entered(result) =>
         && a.page == (if result == 0 then LogPage else RegisterErrorPage)
         && !Named(rows, a.pair.0) && !Named(before, a.pair.0) && a.pair in attempts
  }

  ghost predicate RightClient(s: System, rows: seq<Pair>, c: nat)
    requires c < |s.clients| == |s.looked|
  {
    s.looked[c] <= |s.attempts| &&
    match s.clients[c]
    case Inserting(pair) => !Named(rows, pair.0) && !Named(s.attempts[..s.looked[c]], pair.0)
    case Comparing(pair) => Named(rows, pair.0) || Named(s.attempts[..s.looked[c]], pair.0)
    case _ => true
  }

  ghost predicate Inv(s: System, rows: seq<Pair>) {
    && |s.looked| == |s.clients|
    && Meant(rows, s.attempts, s.users)
    && (forall c :: 0 <= c < |s.clients| ==> RightClient(s, rows, c))
    && forall a <- s.answers :: RightAnswer(rows, s.attempts, a)
  }

  /** Once a name is there, later registrations do not change its password. */
  lemma PasswordStays(rows: seq<Pair>, attempts: seq<Pair>, seen: nat, name: Name, password: Password)
    requires seen <= |attempts|
    requires Named(rows, name) || Named(attempts[..seen], name)
    ensures Named(rows, name) || Named(attempts, name)
    ensures IsPassword(rows, attempts, name, password) <==> IsPassword(rows, attempts[..seen], name, password)
  {
    var before := attempts[..seen];
    if Named(before, name) {
      var n :| 0 <= n < seen && before[n].0 == name;
      assert attempts[n].0 == name;
      if FirstPair(before, name, password) {
        var i :| 0 <= i < |before| && before[i] == (name, password) && forall k :: 0 <= k < i ==> before[k].0 != name;
        assert attempts[i] == (name, password) && forall k :: 0 <= k < i ==> attempts[k].0 == before[k].0;
      }
      if FirstPair(attempts, name, password) {
        var i :| 0 <= i < |attempts| && attempts[i] == (name, password)
               && forall k :: 0 <= k < i ==> attempts[k].0 != name;
        assert i <= n;
        assert before[i] == (name, password) && forall k :: 0 <= k < i ==> attempts[k].0 == before[k].0;
      }
    }
  }

  lemma AnswersStay(rows: seq<Pair>, attempts: seq<Pair>, p: Pair, a: Answer)
    requires RightAnswer(rows, attempts, a)
    ensures RightAnswer(rows, attempts + [p], a)
  {
    assert (attempts + [p])[..a.seen] == attempts[..a.seen];
    NamedMore(attempts, p, a.pair.0);
    hide IsPassword, Named;
  }

  lemma InTable(s: System, rows: seq<Pair>, pair: Pair)
    requires Meant(rows, s.attempts, s.users)
    ensures pair.0 in s.users <==> Named(rows, pair.0) || Named(s.attempts, pair.0)
    ensures pair.0 in s.users && s.users[pair.0] == pair.1 <==> IsPassword(rows, s.attempts, pair.0, pair.1)
    ensures IsPassword(rows, s.attempts, pair.0, pair.1) ==> pair.0 in s.users
  {
  }

  lemma FindKeepsInv(s: System, rows: seq<Pair>, a: Act, c: nat)
    requires Enabled(s, a) && Inv(s, rows) && (a == FindFree(c) || a == FindName(c))
    ensures Inv(Step(s, a), rows)
  {
    var pair := s.clients[c].pair;
    assert s.attempts[..|s.attempts|] == s.attempts;
    assert RightClient(s, rows, c);
    InTable(s, rows, pair);
    hide Meant, Named, IsPassword;
    OthersKept(s, Step(s, a), rows, c);
  }

  /** Clients other than c do not notice, unless users has been extended. */
  lemma OthersKept(s: System, t: System, rows: seq<Pair>, c: nat)
    requires Inv(s, rows) && c < |s.clients| == |t.clients| == |t.looked| && s.attempts == t.attempts
    requires forall k :: 0 <= k < |s.clients| && k != c ==> t.clients[k] == s.clients[k] && t.looked[k] == s.looked[k]
    ensures forall k :: 0 <= k < |t.clients| && k != c ==> RightClient(t, rows, k)
  {
    forall k | 0 <= k < |t.clients| && k != c ensures RightClient(t, rows, k) {
      assert RightClient(s, rows, k);
    }
  }

  lemma CompareKeepsInv(s: System, rows: seq<Pair>, c: nat)
    requires Enabled(s, Compare(c)) && Inv(s, rows)
    ensures Inv(Step(s, Compare(c)), rows)
  {
    var pair := s.clients[c].pair;
    InTable(s, rows, pair);
    assert RightClient(s, rows, c);
    PasswordStays(rows, s.attempts, s.looked[c], pair.0, pair.1);
    hide Meant, Named, IsPassword;
    OthersKept(s, Step(s, Compare(c)), rows, c);
  }

  lemma InsertKeepsInv(s: System, rows: seq<Pair>, c: nat, result: int)
    requires Enabled(s, Insert(c, result)) && Inv(s, rows)
    ensures Inv(Step(s, Insert(c, result)), rows)
  {
    var pair := s.clients[c].pair;
    var t := Step(s, Insert(c, result));
    assert RightClient(s, rows, c);
    InsertMeant(rows, s.attempts, s.users, pair);
    NamedMore(s.attempts, pair, pair.0);
    forall a <- s.answers ensures RightAnswer(rows, t.attempts, a) {
      AnswersStay(rows, s.attempts, pair, a);
    }
    forall k: nat | k <= |s.attempts| ensures t.attempts[..k] == s.attempts[..k] {
    }
    hide Meant, Named, IsPassword;
    forall k | 0 <= k < |t.clients| ensures RightClient(t, rows, k) {
      assert RightClient(s, rows, k);
    }
  }

  lemma StepKeepsInv(s: System, rows: seq<Pair>, a: Act)
    requires Enabled(s, a) && Inv(s, rows)
    ensures Inv(Step(s, a), rows)
  {
    match a {
      case Insert(c, result) => InsertKeepsInv(s, rows, c, result);
      case Compare(c) => CompareKeepsInv(s, rows, c);
      case FindFree(c) => FindKeepsInv(s, rows, a, c);
      case FindName(c) => FindKeepsInv(s, rows, a, c);
      case Register(c, _) =>
        assert RightClient(s, rows, c);
        OthersKept(s, Step(s, a), rows, c);
      case Login(c, _) =>
        assert RightClient(s, rows, c);
        OthersKept(s, Step(s, a), rows, c);
    }
    hide Meant, Named, IsPassword;
  }

  lemma {:induction false} RunKeepsInv(s: System, rows: seq<Pair>, acts: seq<Act>)
    requires Run(s, acts) && Inv(s, rows)
    ensures Inv(Reached(s, acts), rows)
    decreases |acts|
  {
    if acts != [] {
      StepKeepsInv(s, rows, acts[0]);
      RunKeepsInv(Step(s, acts[0]), rows, acts[1..]);
    }
  }

  /** Over every interleaving, a login is answered with the welcome page if and only if
      its pair was the password of the name when it looked the name up, and that is the
      last database row of the name or else its first registration.  A registration is
      refused if and only if the name was there when it looked, or the query fails.  One that
      has gone through, whatever page it was shown, logs in from then on if and only if
      its pair was the first to be registered under that name. */
  lemma LoginsAnsweredRight(rows: seq<Pair>, threads: nat, acts: seq<Act>)
    requires Run(Init(rows, threads), acts)
    ensures var s := Reached(Init(rows, threads), acts);
            && (forall name, password :: name in s.users && s.users[name] == password
                                         <==> IsPassword(rows, s.attempts, name, password))
            && forall a <- s.answers ::
                 && RightAnswer(rows, s.attempts, a)
                 && (a.kind.Entered? ==>
                       a.pair.0 in s.users
                       && (s.users[a.pair.0] == a.pair.1 <==> FirstPair(s.attempts, a.pair.0, a.pair.1)))
  {
    MeantAtStart(rows);
    RunKeepsInv(Init(rows, threads), rows, acts);
    var s := Reached(Init(rows, threads), acts);
    forall a <- s.answers
      ensures a.kind.Entered? ==>
                a.pair.0 in s.users
                && (s.users[a.pair.0] == a.pair.1 <==> FirstPair(s.attempts, a.pair.0, a.pair.1))
    {
      if a.kind.Entered? {
        InsertedStays(s, rows, a.pair);
      }
    }
    hide IsPassword, FirstPair, Named;
  }

  lemma InsertedStays(s: System, rows: seq<Pair>, p: Pair)
    requires Meant(rows, s.attempts, s.users) && !Named(rows, p.0) && p in s.attempts
    ensures p.0 in s.users && (s.users[p.0] == p.1 <==> FirstPair(s.attempts, p.0, p.1))
  {
    InTable(s, rows, p);
    HasName(rows, s.attempts, p.0, p.1);
    var i :| 0 <= i < |s.attempts| && s.attempts[i] == p;
    assert s.attempts[i].0 == p.0;
    hide Meant, LastPair, FirstPair;
  }

  /** A password that is stored never changes. */
  lemma {:induction false} StoredForGood(s: System, acts: seq<Act>, name: Name)
    requires Run(s, acts) && name in s.users
    ensures name in Reached(s, acts).users && Reached(s, acts).users[name] == s.users[name]
    decreases |acts|
  {
    if acts != [] {
      StoredForGood(Step(s, acts[0]), acts[1..], name);
    }
  }

  /** Two threads that find the same name free are both told they are registered, and
      only the first of them is. */
  lemma RacedRegistration(name: Name, p: Password, q: Password) returns (acts: seq<Act>)
    requires p != q
    ensures Run(Init([], 2), acts)
    ensures var s := Reached(Init([], 2), acts);
            && s.answers == [Answer((name, p), LogPage, 0, Entered(0)), Answer((name, q), LogPage, 0, Entered(0))]
            && s.users == map[name := p]
  {
    hide Run, Reached;
    var s2 := BothAsked(name, p, q);
    var s3 := s2.(clients := [Inserting((name, p)), Registering((name, q))]);
    var end;
    acts, end := BothInsert(name, p, q);
    acts := Then(s3, FindFree(1), BothFree(name, p, q), acts, end);
    acts := Then(s2, FindFree(0), s3, acts, end);
    acts := BothRegister(name, p, q, acts, end);
  }

  function BothAsked(name: Name, p: Password, q: Password): System {
    System(map[], [Registering((name, p)), Registering((name, q))], [0, 0], [], [])
  }

  lemma BothRegister(name: Name, p: Password, q: Password, rest: seq<Act>, end: System) returns (acts: seq<Act>)
    requires Run(BothAsked(name, p, q), rest) && Reached(BothAsked(name, p, q), rest) == end
    ensures Run(Init([], 2), acts) && Reached(Init([], 2), acts) == end
  {
    hide Run, Reached;
    var s1 := Init([], 2).(clients := [Registering((name, p)), Idle]);
    acts := Then(s1, Register(1, (name, q)), BothAsked(name, p, q), rest, end);
    acts := Then(Init([], 2), Register(0, (name, p)), s1, acts, end);
  }

  function BothFree(name: Name, p: Password, q: Password): System {
    System(map[], [Inserting((name, p)), Inserting((name, q))], [0, 0], [], [])
  }

  lemma BothInsert(name: Name, p: Password, q: Password) returns (acts: seq<Act>, end: System)
    requires p != q
    ensures Run(BothFree(name, p, q), acts) && Reached(BothFree(name, p, q), acts) == end
    ensures end.answers == [Answer((name, p), LogPage, 0, Entered(0)), Answer((name, q), LogPage, 0, Entered(0))]
    ensures end.users == map[name := p]
  {
    var s4 := BothFree(name, p, q);
    var s5 := Step(s4, Insert(0, 0));
    end := Step(s5, Insert(1, 0));
    hide Run, Reached;
    acts := Nothing(end);
    acts := Then(s5, Insert(1, 0), end, acts, end);
    acts := Then(s4, Insert(0, 0), s5, acts, end);
  }

  lemma Nothing(s: System) returns (acts: seq<Act>)
    ensures Run(s, acts) && Reached(s, acts) == s
  {
    acts := [];
  }

  lemma Then(s: System, a: Act, p: System, rest: seq<Act>, end: System) returns (acts: seq<Act>)
    requires Enabled(s, a) && Step(s, a) == p && Run(p, rest) && Reached(p, rest) == end
    ensures Run(s, acts) && Reached(s, acts) == end
  {
    acts := [a] + rest;
    assert acts[0] == a && acts[1..] == rest;
  }

  /** The table in place; each method is one access of do_request to it. */
  class Users {
    var users: map<Name, Password>

    /** initmysql_result over the rows that mysql_fetch_row returns. */
    constructor initmysql_result(rows: seq<Pair>)
      ensures users == Loaded(rows)
    {
      users := map[];
      new;
      var i := 0;
      while i < |rows|
        invariant i <= |rows| && users == Loaded(rows[..i])
      {
        assert rows[..i + 1][..i] == rows[..i];
        users := users[rows[i].0 := rows[i].1];
        i := i + 1;
      }
      assert rows[..i] == rows;
    }

    method find(name: Name) returns (found: bool)
      ensures found <==> name in users
    {
      return name in users;
    }

    /** The locked region of a registration, with what mysql_query returns. */
    method insert(pair: Pair, res: int) returns (page: Page)
      modifies this
      ensures users == Inserted(old(users), pair)
      ensures pair.0 in users && users[pair.0] == if pair.0 in old(users) then old(users)[pair.0] else pair.1
      ensures page == if res == 0 then LogPage else RegisterErrorPage
    {
      if pair.0 !in users {
        users := users[pair.0 := pair.1];
      }
      page := if res == 0 then LogPage else RegisterErrorPage;
    }

    /** users[name] == password; operator[] of a missing name would add it, but the name
        has been found. */
    method compare(pair: Pair) returns (page: Page)
      requires pair.0 in users
      ensures page == if users[pair.0] == pair.1 then WelcomePage else LogErrorPage
    {
      page := if users[pair.0] == pair.1 then WelcomePage else LogErrorPage;
    }

    /** A registration or a login with no other thread in between. */
    method do_request(login: bool, pair: Pair, res: int) returns (page: Page)
      modifies this
      ensures users == if login then old(users) else Inserted(old(users), pair)
      ensures login ==>
                page == if pair.0 in users && users[pair.0] == pair.1 then WelcomePage else LogErrorPage
      ensures !login ==> page == if pair.0 !in old(users) && res == 0 then LogPage else RegisterErrorPage
    {
      var found := find(pair.0);
      if login {
        if found {
          page := compare(pair);
        } else {
          page := LogErrorPage;
        }
      } else if found {
        page := RegisterErrorPage;
      } else {
        page := insert(pair, res);
      }
    }
  }
}
