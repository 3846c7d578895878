// The lock machine and the session state machine are two views of one server: sessions
// that satisfy the session invariant meet the lock discipline's, and close_socket, run
// lock by lock, is the Close step, or else waits for its own lock, and exactly when.
module LockedSessions {
  import opened Basics
  import opened Sessions
  import S = SessionInvariant
  import L = Locks
  import Scenarios

  // The session pointers, with no lock held and both threads between events.
  function MachineOf(s: State): L.Machine
  {
    L.Machine(seq(|s.users|, i requires 0 <= i < |s.users| => s.users[i].client),
              seq(|s.conns|, j requires 0 <= j < |s.conns| => s.conns[j].user),
              seq(|s.conns|, _ => None),
              L.NetIdle, L.TimeIdle)
  }

  lemma InvariantCarries(s: State)
    requires S.Inv(s)
    ensures L.Inv(MachineOf(s))
  {
  }

  // After any guarded run of the server, and whatever its two threads do from there: no
  // thread waits for a lock it holds, they never wait for each other, and whoever is
  // waited for can move on.
  lemma NoDeadlockAfterRun(s: State, es: seq<Event>, schedule: seq<L.Action>)
    requires S.Initial(s) && S.Guarded(s, es)
    ensures var t := L.Run(MachineOf(Run(s, es)), schedule);
      && (L.NetWants(t.net).Some? ==> !L.NetHolds(t.net, L.NetWants(t.net).value))
      && !(L.NetBlocked(t) && L.TimeBlocked(t))
      && (L.NetBlocked(t) ==> L.Next(t, L.TimeGo).Some? && !L.NetBlocked(L.Next(t, L.TimeGo).value))
      && (L.TimeBlocked(t) ==>
            exists a :: L.IsNet(a) && L.Next(t, a).Some? && L.NetRank(L.Next(t, a).value) < L.NetRank(t))
  {
    hide *;
    S.InitialInv(s);
    S.RunInv(s, es);
    InvariantCarries(Run(s, es));
    L.NoDeadlock(MachineOf(Run(s, es)), schedule);
  }

  // ------------------------------------------------------- the pointer writes

  lemma DetachCarries(s: State, u: nat)
    requires Scoped(s) && u < |s.users| && s.users[u].client.Some?
    ensures MachineOf(Detach(s, u)) == L.DetachUser(MachineOf(s), u)
  {
  }

  lemma AttachCarries(s: State, u: nat, j: nat)
    requires Scoped(s) && u < |s.users| && j < |s.conns|
    ensures MachineOf(Attach(s, u, j)) == L.Attach(MachineOf(s), u, j)
    ensures S.LoginGuard(s, j, u) ==> L.Next(MachineOf(s), L.Login(u, j)) == Some(MachineOf(Attach(s, u, j)))
  {
  }

  // An accept that frees no connection in use is one action of the lock machine.
  lemma AcceptCarries(s: State, fd: int)
    requires Scoped(s) && Safe(s, Accept(fd))
    ensures L.Next(MachineOf(s), L.Accept(SlotOf(s.conns, fd))) == Some(MachineOf(AcceptConn(s, fd)))
  {
    var m, t := MachineOf(s), MachineOf(AcceptConn(s, fd));
    var m' := L.Install(m, SlotOf(s.conns, fd));
    assert m'.client == t.client && m'.user == t.user && m'.owner == t.owner;
  }

  // ------------------------------------------------- close_socket, lock by lock

  // What the network thread does about one user.
  function OneNotice(hears: bool): seq<L.Action>
  {
    if hears then [L.LookAt(true), L.NetGo, L.NetGo] else [L.LookAt(false)]
  }

  // What it does about user k and those after it.
  function NoticeSchedule(d: State, u: nat, now: int, k: nat): seq<L.Action>
    requires u < |d.users| && k <= |d.users|
    decreases |d.users| - k
  {
    if k == |d.users| then []
    else OneNotice(Hears(d, u, LogoutNotice(u), k, now)) + NoticeSchedule(d, u, now, k + 1)
  }

  function CloseSchedule(s: State, j: nat, now: int): seq<L.Action>
    requires Scoped(s) && j < |s.conns|
  {
    var user := s.conns[j].user;
    var notices :=
      if user.None? || s.users[user.value].client.None? then []
      else NoticeSchedule(Detach(s, user.value), user.value, now, 0) + [L.NetGo];
    [L.BeginClose(j), L.NetGo, L.NetGo] + notices + [L.NetGo]
  }

  lemma {:induction false} RunTwice(m: L.Machine, a: seq<L.Action>, b: seq<L.Action>)
    ensures L.Run(m, a + b) == L.Run(L.Run(m, a), b)
    decreases |a|
  {
    hide L.Next;
    if a == [] {
      assert a + b == b;
    } else {
      var next := L.Next(m, a[0]);
      assert (a + b)[1..] == a[1..] + b;
      RunTwice(if next.Some? then next.value else m, a[1..], b);
    }
  }

  lemma RunOne(m: L.Machine, a: L.Action, t: L.Machine)
    requires L.Next(m, a) == Some(t)
    ensures L.Run(m, [a]) == t
  {
  }

  // Holding the lock of j, about to look at user k.
  function AtUser(d: State, j: nat, u: nat, k: nat): L.Machine
    requires j < |d.conns|
  {
    L.Lock(MachineOf(d), j, L.Net).(net := L.Notifying(j, u, k))
  }

  // User v is to be told, under the lock of connection j.
  predicate ToldOn(d: State, j: nat, u: nat, now: int, v: nat)
    requires u < |d.users| && v < |d.users|
  {
    Hears(d, u, LogoutNotice(u), v, now) && d.users[v].client == Some(j)
  }

  // Telling a user on another connection takes and releases the lock of that connection.
  lemma TellOther(d: State, j: nat, u: nat, now: int, k: nat)
    requires Scoped(d) && j < |d.conns| && u < |d.users| && k < |d.users| && !ToldOn(d, j, u, now, k)
    ensures L.Run(AtUser(d, j, u, k), OneNotice(Hears(d, u, LogoutNotice(u), k, now))) == AtUser(d, j, u, k + 1)
  {
    var m := AtUser(d, j, u, k);
    if Hears(d, u, LogoutNotice(u), k, now) {
      var c := d.users[k].client.value;
      var m1 := m.(net := L.WantNotify(j, u, k, c));
      var m2 := L.Lock(m, c, L.Net).(net := L.HoldNotify(j, u, k, c));
      var m3 := AtUser(d, j, u, k + 1);
      assert L.Next(m, L.LookAt(true)) == Some(m1);
      assert L.Next(m1, L.NetGo) == Some(m2);
      assert m2.owner[c := None] == m.owner;
      assert L.Next(m2, L.NetGo) == Some(m3);
      RunThree(m, L.LookAt(true), m1, m2, m3);
    } else {
      RunOne(m, L.LookAt(false), AtUser(d, j, u, k + 1));
    }
  }

  lemma RunThree(m: L.Machine, a: L.Action, m1: L.Machine, m2: L.Machine, m3: L.Machine)
    requires L.Next(m, a) == Some(m1) && L.Next(m1, L.NetGo) == Some(m2) && L.Next(m2, L.NetGo) == Some(m3)
    ensures L.Run(m, [a, L.NetGo, L.NetGo]) == m3
  {
    hide L.Next;
    RunOne(m, a, m1);
    RunOne(m1, L.NetGo, m2);
    RunOne(m2, L.NetGo, m3);
    RunTwice(m, [a], [L.NetGo]);
    RunTwice(m, [a, L.NetGo], [L.NetGo]);
    assert [a] + [L.NetGo] == [a, L.NetGo];
    assert [a, L.NetGo] + [L.NetGo] == [a, L.NetGo, L.NetGo];
  }

  // ------------------------------------------------------ waiting for oneself

  // The network thread holds the lock of j and waits for it.
  predicate SelfWaiting(m: L.Machine, j: nat)
  {
    && L.NetWants(m.net) == Some(j) && L.NetHolds(m.net, j)
    && j < |m.owner| && m.owner[j] == Some(L.Net) && !L.TimeHolds(m.time, j)
  }

  // There is no way out: whatever either thread does next, it still waits.
  lemma {:induction false} SelfWaitingForGood(m: L.Machine, j: nat, schedule: seq<L.Action>)
    requires SelfWaiting(m, j)
    ensures SelfWaiting(L.Run(m, schedule), j)
    decreases |schedule|
  {
    hide SelfWaiting, L.Next;
    if schedule != [] {
      var next := L.Next(m, schedule[0]);
      if next.Some? { SelfWaitingStep(m, j, schedule[0]); }
      SelfWaitingForGood(if next.Some? then next.value else m, j, schedule[1..]);
    }
  }

  lemma SelfWaitingStep(m: L.Machine, j: nat, a: L.Action)
    requires SelfWaiting(m, j) && L.Next(m, a).Some?
    ensures SelfWaiting(L.Next(m, a).value, j)
  {
  }

  // Telling a user on the connection being closed.
  lemma TellSelf(d: State, j: nat, u: nat, now: int, k: nat)
    requires Scoped(d) && j < |d.conns| && u < |d.users| && k < |d.users| && ToldOn(d, j, u, now, k)
    ensures SelfWaiting(L.Run(AtUser(d, j, u, k), OneNotice(Hears(d, u, LogoutNotice(u), k, now))), j)
  {
    var m := AtUser(d, j, u, k);
    var m1 := m.(net := L.WantNotify(j, u, k, j));
    assert L.Next(m, L.LookAt(true)) == Some(m1);
    RunOne(m, L.LookAt(true), m1);
    RunTwice(m, [L.LookAt(true)], [L.NetGo, L.NetGo]);
    assert [L.LookAt(true)] + [L.NetGo, L.NetGo] == [L.LookAt(true), L.NetGo, L.NetGo];
    SelfWaitingForGood(m1, j, [L.NetGo, L.NetGo]);
  }

  // From user k on, the thread comes to wait for itself if some user is to be told on j, and
  // reaches the last user otherwise.
  lemma {:induction false} AllNotices(d: State, j: nat, u: nat, now: int, k: nat)
    requires Scoped(d) && j < |d.conns| && u < |d.users| && k <= |d.users|
    ensures var t := L.Run(AtUser(d, j, u, k), NoticeSchedule(d, u, now, k));
      if exists v :: k <= v < |d.users| && ToldOn(d, j, u, now, v) then SelfWaiting(t, j)
      else t == AtUser(d, j, u, |d.users|)
    decreases |d.users| - k
  {
    hide Hears, ToldOn, AtUser, SelfWaiting, L.Next, OneNotice;
    if k < |d.users| {
      var first := OneNotice(Hears(d, u, LogoutNotice(u), k, now));
      var rest := NoticeSchedule(d, u, now, k + 1);
      RunTwice(AtUser(d, j, u, k), first, rest);
      if ToldOn(d, j, u, now, k) {
        TellSelf(d, j, u, now, k);
        SelfWaitingForGood(L.Run(AtUser(d, j, u, k), first), j, rest);
      } else {
        TellOther(d, j, u, now, k);
        AllNotices(d, j, u, now, k + 1);
      }
    }
  }

  // The lock is taken and nothing else has happened.
  function Locked(s: State, j: nat): L.Machine
    requires j < |s.conns|
  {
    L.Lock(MachineOf(s), j, L.Net).(net := L.Detaching(j))
  }

  function AtEnd(s: State, j: nat): L.Machine
    requires j < |s.conns|
  {
    L.Lock(MachineOf(s), j, L.Net).(net := L.Releasing(j))
  }

  lemma TakeLock(s: State, j: nat)
    requires j < |s.conns|
    ensures L.Run(MachineOf(s), [L.BeginClose(j), L.NetGo]) == Locked(s, j)
  {
    var m := MachineOf(s);
    var m1 := m.(net := L.WantClose(j));
    assert L.Next(m, L.BeginClose(j)) == Some(m1);
    assert L.Next(m1, L.NetGo) == Some(Locked(s, j));
    RunOne(m, L.BeginClose(j), m1);
    RunOne(m1, L.NetGo, Locked(s, j));
    RunTwice(m, [L.BeginClose(j)], [L.NetGo]);
    assert [L.BeginClose(j)] + [L.NetGo] == [L.BeginClose(j), L.NetGo];
  }

  lemma ReleaseLock(s: State, j: nat)
    requires j < |s.conns|
    ensures L.Run(AtEnd(s, j), [L.NetGo]) == MachineOf(s)
  {
    var m := MachineOf(s);
    assert L.Lock(m, j, L.Net).owner[j := None] == m.owner;
    assert L.Next(AtEnd(s, j), L.NetGo) == Some(m);
    RunOne(AtEnd(s, j), L.NetGo, m);
  }

  // logoutUser under the lock: the pointer writes, then one notice after another.
  lemma DetachAndTell(s: State, j: nat, u: nat, now: int)
    requires Scoped(s) && j < |s.conns| && s.conns[j].user == Some(u) && s.users[u].client.Some?
    ensures var d := Detach(s, u);
      var t := L.Run(Locked(s, j), [L.NetGo] + NoticeSchedule(d, u, now, 0) + [L.NetGo]);
      if exists v :: 0 <= v < |d.users| && ToldOn(d, j, u, now, v) then SelfWaiting(t, j) else t == AtEnd(d, j)
  {
    hide ToldOn, SelfWaiting, AtUser, Locked, AtEnd, L.Next, L.Run;
    var d := Detach(s, u);
    var notices := NoticeSchedule(d, u, now, 0);
    DetachUnderLock(s, j, u);
    AllNotices(d, j, u, now, 0);
    LastNotice(d, j, u);
    RunTwice(Locked(s, j), [L.NetGo], notices);
    RunTwice(Locked(s, j), [L.NetGo] + notices, [L.NetGo]);
    if exists v :: 0 <= v < |d.users| && ToldOn(d, j, u, now, v) {
      SelfWaitingForGood(L.Run(AtUser(d, j, u, 0), notices), j, [L.NetGo]);
    }
  }

  lemma DetachUnderLock(s: State, j: nat, u: nat)
    requires Scoped(s) && j < |s.conns| && s.conns[j].user == Some(u) && s.users[u].client.Some?
    ensures L.Run(Locked(s, j), [L.NetGo]) == AtUser(Detach(s, u), j, u, 0)
  {
    DetachCarries(s, u);
    assert L.Next(Locked(s, j), L.NetGo) == Some(AtUser(Detach(s, u), j, u, 0));
    RunOne(Locked(s, j), L.NetGo, AtUser(Detach(s, u), j, u, 0));
  }

  lemma LastNotice(d: State, j: nat, u: nat)
    requires j < |d.conns|
    ensures L.Run(AtUser(d, j, u, |d.users|), [L.NetGo]) == AtEnd(d, j)
  {
  }

  lemma NobodyToDetach(s: State, j: nat)
    requires Scoped(s) && j < |s.conns|
    requires s.conns[j].user.None? || s.users[s.conns[j].user.value].client.None?
    ensures L.Run(Locked(s, j), [L.NetGo]) == AtEnd(s, j)
  {
  }

  // Some online user other than the one that connection j names is on j as well, and the
  // named user, who has a session, has not blocked it.
  predicate SharedBy(s: State, j: nat, u: nat, now: int, v: nat)
    requires u < |s.users| && v < |s.users|
  {
    v != u && s.users[v].client == Some(j) && Online(s, v, now) && v !in s.users[u].blocked
  }

  predicate SharedClose(s: State, j: nat, now: int)
    requires Scoped(s) && j < |s.conns|
  {
    s.conns[j].user.Some? &&
    var u := s.conns[j].user.value;
    s.users[u].client.Some? && exists v :: 0 <= v < |s.users| && SharedBy(s, j, u, now, v)
  }

  // close_socket, uninterrupted, in any state whatever: it comes to wait for the lock that it
  // holds, for good, if and only if such a user shares the connection; otherwise it ends with
  // every lock free and the pointers as the Close step leaves them.
  lemma CloseWaitsIff(s: State, j: nat, now: int)
    requires Scoped(s) && j < |s.conns|
    ensures var t := L.Run(MachineOf(s), CloseSchedule(s, j, now));
      && (SelfWaiting(t, j) <==> SharedClose(s, j, now))
      && (!SharedClose(s, j, now) ==> t == MachineOf(Close(s, j, now)))
  {
    hide L.Run, AtEnd, Locked, NoticeSchedule;
    var user := s.conns[j].user;
    var head := [L.BeginClose(j), L.NetGo];
    TakeLock(s, j);
    if user.None? || s.users[user.value].client.None? {
      NobodyToDetach(s, j);
      ReleaseLock(s, j);
      RunTwice(MachineOf(s), head, [L.NetGo]);
      RunTwice(MachineOf(s), head + [L.NetGo], [L.NetGo]);
      assert CloseSchedule(s, j, now) == head + [L.NetGo] + [L.NetGo];
      assert MachineOf(s) == MachineOf(Close(s, j, now));
    } else {
      var d := Detach(s, user.value);
      var body := [L.NetGo] + NoticeSchedule(d, user.value, now, 0) + [L.NetGo];
      DetachAndTell(s, j, user.value, now);
      SharedIsTold(s, j, user.value, now);
      RunTwice(MachineOf(s), head, body);
      RunTwice(MachineOf(s), head + body, [L.NetGo]);
      assert CloseSchedule(s, j, now) == head + body + [L.NetGo];
      if SharedClose(s, j, now) {
        SelfWaitingForGood(L.Run(MachineOf(s), head + body), j, [L.NetGo]);
      } else {
        ReleaseLock(d, j);
        S.FanOutMail(d, user.value, LogoutNotice(user.value), now, |d.users|);
        assert MachineOf(d) == MachineOf(Close(s, j, now));
      }
    }
  }

  lemma SharedIsTold(s: State, j: nat, u: nat, now: int)
    requires Scoped(s) && j < |s.conns| && u < |s.users| && s.users[u].client.Some?
    ensures (exists v :: 0 <= v < |s.users| && SharedBy(s, j, u, now, v))
      <==> (exists v :: 0 <= v < |s.users| && ToldOn(Detach(s, u), j, u, now, v))
  {
    forall v | 0 <= v < |s.users| ensures SharedBy(s, j, u, now, v) <==> ToldOn(Detach(s, u), j, u, now, v) {
    }
  }

  // Under the session invariant nobody shares a connection, so every close completes.
  lemma CloseRuns(s: State, j: nat, now: int)
    requires S.Inv(s) && j < |s.conns|
    ensures L.Run(MachineOf(s), CloseSchedule(s, j, now)) == MachineOf(Close(s, j, now))
  {
    hide L.Run, CloseSchedule, MachineOf;
    CloseWaitsIff(s, j, now);
    assert !SharedClose(s, j, now);
  }

  // ------------------------------------------------------- how it comes about

  // A login that overwrites client->user makes closing that connection wait for itself if and
  // only if it found an online user there whom the newcomer has not blocked.
  lemma OccupiedLoginIff(s: State, j: nat, u: nat, username: Name, password: Name, now: int)
    requires S.Inv(s) && j < |s.conns| && LoginGranted(s, username, password, now)
    requires u == FindUser(s.users, username).value
    ensures var t := Step(s, Command(j, Login(username, password), now));
      SharedClose(t, j, now) <==> exists v :: 0 <= v < |s.users| && SharedBy(s, j, u, now, v)
  {
    hide Step;
    S.LoginStep(s, j, u, username, password, now);
    var t := Step(s, Command(j, Login(username, password), now));
    forall v | 0 <= v < |s.users| ensures SharedBy(s, j, u, now, v) <==> SharedBy(t, j, u, now, v) {
    }
  }

  // Such a login is reachable: a client logs in twice over one connection, as two users.
  lemma TwoLoginsWaitForever() returns (s: State, es: seq<Event>)
    ensures S.Initial(s) && Possible(s, es) && |es| == 3
    ensures es[0].Accept? && es[1].Command? && es[1].request.Login? && es[2].Command? && es[2].request.Login?
    ensures var t := Run(s, es);
      && |t.conns| == 1 && t.conns[0].open
      && (forall schedule :: SelfWaiting(L.Run(L.Run(MachineOf(t), CloseSchedule(t, 0, 2)), schedule), 0))
  {
    s := Scenarios.START;
    Scenarios.Start();
    es := Scenarios.FirstIn();
    S.InitialInv(s);
    S.RunInv(s, es);
    var s2 := Run(s, es);
    var second := Command(0, Login(Scenarios.B.name, Scenarios.B.password), 2);
    Scenarios.Admitted(s2, Scenarios.LoggedIn(Scenarios.A, 0, 1), Scenarios.B, [(5, Some(0))], 0, 1, 2);
    RunAppend(s, es, [second]);
    OverwriteWaits(s2, Scenarios.B.name, 2);
    var t := Step(s2, second);
    assert Possible(t, []) && Run(t, []) == t && [second][1..] == [];
    hide Step, SelfWaiting, CloseSchedule, L.Run, MachineOf, S.Inv, Scenarios.Looks;
    es := es + [second];
    forall schedule ensures SelfWaiting(L.Run(L.Run(MachineOf(t), CloseSchedule(t, 0, 2)), schedule), 0) {
      SelfWaitingForGood(L.Run(MachineOf(t), CloseSchedule(t, 0, 2)), 0, schedule);
    }
  }

  // User 1 logs in where user 0 is online.
  lemma OverwriteWaits(s: State, name: Name, now: int)
    requires S.Inv(s) && |s.users| == 2 && |s.conns| == 1 && s.users[1] == Scenarios.Newcomer(name)
    requires LoginGranted(s, name, name, now) && FindUser(s.users, name) == Some(1)
    requires s.users[0].client == Some(0) && s.users[0].lastActive + s.loginTimeout > now
    ensures var t := Step(s, Command(0, Login(name, name), now));
      SelfWaiting(L.Run(MachineOf(t), CloseSchedule(t, 0, now)), 0)
  {
    hide Step, S.AccountOk, S.Linked, S.DistinctFds, SelfWaiting, CloseSchedule, L.Run, MachineOf, SharedClose;
    S.LoginStep(s, 0, 1, name, name, now);
    OccupiedLoginIff(s, 0, 1, name, name, now);
    assert SharedBy(s, 0, 1, now, 0);
    CloseWaitsIff(Step(s, Command(0, Login(name, name), now)), 0, now);
  }
}
