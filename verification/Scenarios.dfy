// Small concrete runs, for showing that a failure can be reached: two users and a few
// connections, followed event by event.
module Scenarios {
  import opened Basics
  import opened FileTable
  import opened Sessions
  import opened SessionInvariant

  function Newcomer(name: Name): Account
  {
    Account(name, name, -1, -1, -1, 0, None, [], [])
  }

  const A := Newcomer([97])
  const B := Newcomer([98])

  // A fresh server with two users, ten seconds of login timeout and a minute of lock.
  const START := State([A, B], [], NO_FILES, 60, 10)

  // A connection's descriptor and the user that it names.
  type End = (int, Option<nat>)

  // The two accounts and the connections, all of them open.
  predicate Looks(s: State, a: Account, b: Account, ends: seq<End>)
  {
    && s.users == [a, b] && a.name != b.name && s.loginTimeout == 10
    && |s.conns| == |ends|
    && forall i :: 0 <= i < |ends| ==>
         s.conns[i].fd == ends[i].0 && s.conns[i].open && s.conns[i].user == ends[i].1
  }

  lemma Start()
    ensures Initial(START) && Looks(START, A, B, [])
    ensures Guarded(START, []) && Run(START, []) == START
  {
  }

  function LoggedIn(a: Account, j: nat, now: int): Account
  {
    a.(attempts := 0, lastActive := now, lastLoggedIn := now, client := Some(j))
  }

  // User u logs in on connection j; the guard holds when the other user is not there.
  lemma Admitted(s: State, a: Account, b: Account, ends: seq<End>, j: nat, u: nat, now: int)
    requires Scoped(s) && Looks(s, a, b, ends) && j < |ends| && u < 2
    requires s.users[u].lastBlocked <= now && !Online(s, u, now)
    ensures var name, password := s.users[u].name, s.users[u].password;
      var e := Command(j, Login(name, password), now);
      var a', b' := (if u == 0 then LoggedIn(a, j, now) else a), (if u == 1 then LoggedIn(b, j, now) else b);
      && FindUser(s.users, name) == Some(u) && LoginGranted(s, name, password, now)
      && Looks(Step(s, e), a', b', ends[j := (ends[j].0, Some(u))])
      && (s.users[1 - u].client != Some(j) ==> Guard(s, e))
  {
    var name, password := s.users[u].name, s.users[u].password;
    TwoNames(s.users, u);
    assert LoginGranted(s, name, password, now);
    LoginStep(s, j, u, name, password, now);
    hide Step, LoginGranted, FindUser;
  }

  lemma TwoNames(users: seq<Account>, u: nat)
    requires |users| == 2 && u < 2 && users[0].name != users[1].name
    ensures FindUser(users, users[u].name) == Some(u)
  {
    assert FindUserFrom(users, users[u].name, u) == Some(u);
    assert u == 1 ==> FindUserFrom(users, users[u].name, 0) == FindUserFrom(users, users[u].name, 1);
  }

  // User 1 writes to user 0, who is not online.
  lemma Written(s: State, a: Account, b: Account, ends: seq<End>, j: nat, text: seq<byte>, now: int)
    requires Scoped(s) && Looks(s, a, b, ends) && j < |ends| && ends[j].1 == Some(1)
    requires Online(s, 1, now) && !Online(s, 0, now) && 1 !in a.blocked
    ensures Looks(Step(s, Command(j, Direct(a.name, text), now)),
                  a.(buffer := a.buffer + [Chat(1, text)]), b.(lastActive := now), ends)
  {
    TwoNames(s.users, 0);
    hide FindUser;
  }

  // A client connects and logs in as user u, who is not online.
  lemma Joins(es: seq<Event>, a: Account, b: Account, ends: seq<End>, fd: int, u: nat, now: int)
    returns (more: seq<Event>)
    requires Guarded(START, es) && Looks(Run(START, es), a, b, ends)
    requires u < 2 && |ends| < MAX_CLIENTS && forall i :: 0 <= i < |ends| ==> ends[i].0 != fd
    requires var x := [a, b][u];
      x.lastBlocked <= now && (x.client.None? || x.lastActive + 10 <= now)
    ensures var x := [a, b][u];
      more == es + [Accept(fd)] + [Command(|ends|, Login(x.name, x.password), now)]
    ensures Guarded(START, more)
    ensures Looks(Run(START, more), if u == 0 then LoggedIn(a, |ends|, now) else a,
                  if u == 1 then LoggedIn(b, |ends|, now) else b, ends + [(fd, Some(u))])
  {
    var j := |ends|;
    var s := Run(START, es);
    var x := [a, b][u];
    var login := Command(j, Login(x.name, x.password), now);
    var s' := Step(s, Accept(fd));
    assert forall i :: 0 <= i < |s.users| ==> s.users[i].client != Some(|s.conns|);
    assert s'.users == [a, b];
    Admitted(s', a, b, ends + [(fd, None)], j, u, now);
    assert (ends + [(fd, None)])[j := (fd, Some(u))] == ends + [(fd, Some(u))];
    hide Step, Looks, Guard;
    Extend(START, es, Accept(fd));
    Extend(START, es + [Accept(fd)], login);
    more := es + [Accept(fd)] + [login];
  }

  // User 0 connects and logs in.
  lemma FirstIn() returns (es: seq<Event>)
    ensures Guarded(START, es) && es == [Accept(5), Command(0, Login(A.name, A.password), 1)]
    ensures Looks(Run(START, es), LoggedIn(A, 0, 1), B, [(5, Some(0))])
  {
    Start();
    es := Joins([], A, B, [], 5, 0, 1);
    assert [] + [(5, Some(0))] == [(5, Some(0))];
  }

  // Then another client connects and user u logs in there.
  lemma SecondIn(u: nat, now: int) returns (es: seq<Event>)
    requires u < 2 && now >= 11
    ensures Guarded(START, es)
    ensures Looks(Run(START, es), if u == 0 then LoggedIn(A, 1, now) else LoggedIn(A, 0, 1),
                  if u == 1 then LoggedIn(B, 1, now) else B, [(5, Some(0)), (6, Some(u))])
  {
    es := FirstIn();
    hide Looks, Run, Guarded;
    es := Joins(es, LoggedIn(A, 0, 1), B, [(5, Some(0))], 6, u, now);
    assert [(5, Some(0))] + [(6, Some(u))] == [(5, Some(0)), (6, Some(u))];
  }

  // User 1 has logged in, writes to user 0, who has fallen silent, and then user 0 is back
  // on a third connection.
  lemma WrittenThenBack() returns (es: seq<Event>)
    ensures Guarded(START, es)
    ensures Looks(Run(START, es), LoggedIn(LoggedIn(A, 0, 1).(buffer := [Chat(1, [])]), 2, 17),
                  LoggedIn(B, 1, 15).(lastActive := 16), [(5, Some(0)), (6, Some(1)), (7, Some(0))])
  {
    var first := SecondIn(1, 15);
    var s := Run(START, first);
    var a, b := LoggedIn(A, 0, 1), LoggedIn(B, 1, 15);
    var a1, b1 := a.(buffer := [Chat(1, [])]), b.(lastActive := 16);
    var ends := [(5, Some(0)), (6, Some(1))];
    var direct := Command(1, Direct(A.name, []), 16);
    assert s.users == [a, b] && [] + [Chat(1, [])] == [Chat(1, [])];
    Written(s, a, b, ends, 1, [], 16);
    assert InTable(s, direct) && Guard(s, direct);
    hide Step, Looks, Guard, Run, Guarded;
    Extend(START, first, direct);
    es := Joins(first + [direct], a1, b1, ends, 7, 0, 17);
    assert ends + [(7, Some(0))] == [(5, Some(0)), (6, Some(1)), (7, Some(0))];
  }
}
