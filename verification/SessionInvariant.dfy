// What every run of the server keeps: sessions are linked both ways, descriptors are
// distinct, attempts stay below three and block lists are sets.
module SessionInvariant {
  import opened Basics
  import opened FileTable
  import opened Sessions

  // A user's connection is open and points back at that user.
  predicate Linked(s: State)
    requires Scoped(s)
  {
    forall i :: 0 <= i < |s.users| ==> s.users[i].client.Some? ==>
      var c := s.conns[s.users[i].client.value];
      c.open && c.user == Some(i)
  }

  predicate DistinctFds(conns: seq<Conn>)
  {
    forall i, j :: 0 <= i < j < |conns| ==> conns[i].fd != conns[j].fd
  }

  // What holds of each account on its own.
  predicate AccountOk(s: State, i: nat)
    requires i < |s.users|
  {
    && 0 <= s.users[i].attempts <= 2
    && NoDuplicates(s.users[i].blocked)
    && i !in s.users[i].blocked
    && forall u <- s.users[i].blocked :: u < |s.users|
  }

  ghost predicate Inv(s: State)
  {
    && Scoped(s)
    && Linked(s)
    && DistinctFds(s.conns)
    && |s.conns| <= MAX_CLIENTS
    && forall i :: 0 <= i < |s.users| ==> AccountOk(s, i)
  }

  // ------------------------------------------------- what the invariant is about

  // s and t have the same sessions, block lists and failed attempts, on the same connections.
  ghost predicate SameSessions(s: State, t: State)
  {
    && |t.users| == |s.users| && |t.conns| == |s.conns|
    && (forall i :: 0 <= i < |s.users| ==>
          && t.users[i].client == s.users[i].client
          && t.users[i].blocked == s.users[i].blocked
          && t.users[i].attempts == s.users[i].attempts)
    && (forall j :: 0 <= j < |s.conns| ==>
          t.conns[j].fd == s.conns[j].fd && t.conns[j].open == s.conns[j].open && t.conns[j].user == s.conns[j].user)
  }

  lemma InvCarries(s: State, t: State)
    requires SameSessions(s, t) && Inv(s)
    ensures Inv(t)
  {
    forall i | 0 <= i < |t.users| ensures AccountOk(t, i) {
      assert AccountOk(s, i);
    }
  }

  lemma SameInv(s: State, t: State)
    requires SameSessions(s, t)
    ensures Inv(s) <==> Inv(t)
  {
    if Inv(s) { InvCarries(s, t); }
    if Inv(t) { InvCarries(t, s); }
  }

  // Only the queue differs, and only at its end.
  predicate Lengthened(c: Conn, d: Conn)
  {
    d == c.(out := d.out) && c.out <= d.out
  }

  ghost predicate OnlyMail(s: State, t: State)
  {
    && t == s.(conns := t.conns) && |t.conns| == |s.conns|
    && forall j :: 0 <= j < |s.conns| ==> Lengthened(s.conns[j], t.conns[j])
  }

  lemma PostIsMail(s: State, t: State, j: nat, r: Response)
    requires Scoped(t) && j < |t.conns| && OnlyMail(s, t)
    ensures OnlyMail(s, Post(t, j, r))
  {
  }

  // Telling everyone only lengthens the connections' queues: nobody who is told is offline.
  lemma {:induction false} FanOutMail(s: State, from: nat, r: Response, now: int, k: nat)
    requires Scoped(s) && from < |s.users| && k <= |s.users|
    ensures OnlyMail(s, FanOut(s, from, r, now, k))
  {
    hide Lengthened, HasBlocked;
    if k == 0 {
      assert OnlyMail(s, s) by { SameMail(s); }
    } else {
      FanOutMail(s, from, r, now, k - 1);
      var t := FanOut(s, from, r, now, k - 1);
      if Hears(t, from, r, k - 1, now) {
        PostIsMail(s, t, t.users[k - 1].client.value, r);
      }
    }
  }

  lemma SameMail(s: State)
    ensures OnlyMail(s, s)
  {
  }

  // What a logout leaves, messages aside.
  lemma LogoutEffect(s: State, user: Option<nat>, now: int)
    requires Scoped(s) && (user.Some? ==> user.value < |s.users|)
    ensures var t := LogoutUser(s, user, now);
      && t == s.(users := t.users, conns := t.conns)
      && (forall i :: 0 <= i < |s.users| ==>
            t.users[i] == if user == Some(i) then s.users[i].(client := None) else s.users[i])
      && (forall j :: 0 <= j < |s.conns| ==>
            var gone := user.Some? && s.users[user.value].client == Some(j);
            Lengthened(s.conns[j].(user := if gone then None else s.conns[j].user), t.conns[j]))
  {
    if user.Some? && s.users[user.value].client.Some? {
      var d := Detach(s, user.value);
      FanOutMail(d, user.value, LogoutNotice(user.value), now, |d.users|);
    }
  }

  // What a login request leaves, messages aside.
  lemma LoginEffect(s: State, j: nat, username: Name, password: Name, now: int)
    requires Scoped(s) && j < |s.conns|
    ensures var t := LoginOn(s, j, username, password, now).0;
      && t == s.(users := t.users, conns := t.conns)
      && match FindUser(s.users, username)
         case None => t == s
         case Some(u) =>
           var (a, verdict) := Authenticate(s.users[u], password, Online(s, u, now), s.blockDuration, now);
           && t.users == s.users[u := if verdict.Granted? then a.(client := Some(j)) else a]
           && (forall c :: 0 <= c < |s.conns| ==>
                 var here := verdict.Granted? && c == j;
                 Lengthened(s.conns[c].(user := if here then Some(u) else s.conns[c].user), t.conns[c]))
  {
    if FindUser(s.users, username).Some? {
      var u := FindUser(s.users, username).value;
      var (a, verdict) := Authenticate(s.users[u], password, Online(s, u, now), s.blockDuration, now);
      hide Authenticate, FindUser;
      var t := s.(users := s.users[u := a]);
      FanOutMail(t, u, LoginNotice(u), now, |t.users|);
      hide FanOut;
    }
  }

  // What follows a command: the refresh and the reply.
  lemma CommandTail(s: State, j: nat, request: Request, now: int)
    requires Scoped(s) && j < |s.conns|
    ensures var t, t' := RunCommand(s, j, request, now).0, DoCommand(s, j, request, now);
      && t' == t.(users := t'.users, conns := t'.conns)
      && (forall i :: 0 <= i < |t.users| ==>
            && t'.users[i] == t.users[i].(lastActive := t'.users[i].lastActive)
            && (t'.users[i].lastActive == t.users[i].lastActive || t'.users[i].lastActive == now))
      && (forall c :: 0 <= c < |t.conns| ==> Lengthened(t.conns[c], t'.conns[c]))
  {
  }

  // A granted login, from the request to its reply.
  lemma LoginStep(s: State, j: nat, u: nat, username: Name, password: Name, now: int)
    requires Scoped(s) && j < |s.conns| && LoginGranted(s, username, password, now)
    requires u == FindUser(s.users, username).value
    ensures var t := Step(s, Command(j, Login(username, password), now));
      && t == s.(users := t.users, conns := t.conns) && |t.conns| == |s.conns|
      && t.users == s.users[u := s.users[u].(attempts := 0, lastActive := now, lastLoggedIn := now, client := Some(j))]
      && (forall c :: 0 <= c < |s.conns| ==>
            Lengthened(s.conns[c].(user := if c == j then Some(u) else s.conns[c].user), t.conns[c]))
  {
    LoginEffect(s, j, username, password, now);
    CommandTail(s, j, Login(username, password), now);
    hide LoginOn, DoCommand, FindUser;
  }

  // Slot j is the connection of one of the first k users that hear r from `from`.
  predicate Reached(s: State, from: nat, r: Response, now: int, k: nat, j: nat)
    requires Scoped(s) && from < |s.users| && k <= |s.users| && j < |s.conns|
  {
    && s.conns[j].user.Some?
    && var v := s.conns[j].user.value;
    && v < k && s.users[v].client == Some(j) && Hears(s, from, r, v, now)
  }

  function Delivered(c: Conn, r: Response, reached: bool): Conn
  {
    if reached then c.(out := c.out + [r]) else c
  }

  // t is s after the first k users have been served.
  ghost predicate Served(s: State, from: nat, r: Response, now: int, k: nat, t: State)
    requires Scoped(s) && from < |s.users| && k <= |s.users|
  {
    && t == s.(conns := t.conns)
    && |t.conns| == |s.conns|
    && forall j :: 0 <= j < |s.conns| ==> t.conns[j] == Delivered(s.conns[j], r, Reached(s, from, r, now, k, j))
  }

  lemma ReachedStep(s: State, from: nat, r: Response, now: int, k: nat, j: nat)
    requires Scoped(s) && Linked(s) && from < |s.users| && 0 < k <= |s.users| && j < |s.conns|
    ensures var added := Hears(s, from, r, k - 1, now) && s.users[k - 1].client == Some(j);
      && (Reached(s, from, r, now, k, j) <==> Reached(s, from, r, now, k - 1, j) || added)
      && !(Reached(s, from, r, now, k - 1, j) && added)
  {
  }

  lemma ServeNext(s: State, from: nat, r: Response, now: int, k: nat, t: State)
    requires Scoped(s) && Scoped(t) && Linked(s) && from < |s.users| && 0 < k <= |s.users|
    requires Served(s, from, r, now, k - 1, t)
    requires Hears(s, from, r, k - 1, now) ==> Online(s, k - 1, now)
    ensures var hears := Hears(s, from, r, k - 1, now);
      Served(s, from, r, now, k, if hears then Post(t, s.users[k - 1].client.value, r) else t)
  {
    hide Hears, Reached;
    var t' := if Hears(s, from, r, k - 1, now) then Post(t, s.users[k - 1].client.value, r) else t;
    forall j | 0 <= j < |s.conns|
      ensures t'.conns[j] == Delivered(s.conns[j], r, Reached(s, from, r, now, k, j))
    {
      ReachedStep(s, from, r, now, k, j);
    }
  }

  // Every recipient gets exactly one copy, on its own connection; nothing else changes.
  lemma {:induction false} FanOutExact(s: State, from: nat, r: Response, now: int, k: nat)
    requires Scoped(s) && Linked(s) && from < |s.users| && k <= |s.users|
    ensures Served(s, from, r, now, k, FanOut(s, from, r, now, k))
  {
    hide Hears;
    if k > 0 {
      FanOutExact(s, from, r, now, k - 1);
      var t := FanOut(s, from, r, now, k - 1);
      HearsOnline(s, t, from, r, k - 1, now);
      ServeNext(s, from, r, now, k, t);
    }
  }

  lemma HearsOnline(s: State, t: State, from: nat, r: Response, v: nat, now: int)
    requires from < |s.users| && v < |s.users| && t == s.(conns := t.conns)
    ensures Hears(t, from, r, v, now) == Hears(s, from, r, v, now)
    ensures Hears(s, from, r, v, now) ==> Online(s, v, now)
  {
  }

  // ------------------------------------------------------------ detaching

  lemma DetachInv(s: State, u: nat)
    requires Inv(s) && u < |s.users| && s.users[u].client.Some?
    ensures Inv(Detach(s, u))
  {
    var t := Detach(s, u);
    forall i | 0 <= i < |t.users| ensures AccountOk(t, i) {
      assert AccountOk(s, i);
    }
  }

  // Afterwards nobody is attached to the connection whose user was logged out.
  lemma LogoutInv(s: State, j: nat, now: int)
    requires Inv(s) && j < |s.conns|
    ensures var t := LogoutUser(s, s.conns[j].user, now);
      Inv(t) && forall v :: 0 <= v < |t.users| ==> t.users[v].client != Some(j)
  {
    var user := s.conns[j].user;
    if user.Some? && s.users[user.value].client.Some? {
      var u := user.value;
      DetachInv(s, u);
      var d := Detach(s, u);
      FanOutMail(d, u, LogoutNotice(u), now, |d.users|);
      InvCarries(d, FanOut(d, u, LogoutNotice(u), now, |d.users|));
    }
  }

  lemma CloseInv(s: State, j: nat, now: int)
    requires Inv(s) && j < |s.conns|
    ensures Inv(Close(s, j, now))
  {
    LogoutInv(s, j, now);
    var t := LogoutUser(s, s.conns[j].user, now);
    var t' := Close(s, j, now);
    forall i | 0 <= i < |t'.users| ensures AccountOk(t', i) {
      assert AccountOk(t, i);
    }
  }

  lemma ExpireInv(s: State, j: nat, now: int)
    requires Inv(s) && j < |s.conns|
    ensures Inv(ExpireAt(s, j, now))
  {
    LogoutInv(s, j, now);
    var t := LogoutUser(s, s.conns[j].user, now);
    InvCarries(t, Post(t, j, IdleExit));
  }

  // ------------------------------------------------------------- accepting

  // An accept keeps the invariant exactly when nobody points at the slot it reuses, if it
  // reuses one, and clients[] has room.
  lemma AcceptInvIff(s: State, fd: int)
    requires Inv(s)
    ensures Inv(AcceptConn(s, fd)) <==> Safe(s, Accept(fd))
  {
    var t := AcceptConn(s, fd);
    forall i | 0 <= i < |t.users| ensures AccountOk(t, i) {
      assert AccountOk(s, i);
    }
    if i :| 0 <= i < |s.users| && s.users[i].client == Some(SlotOf(s.conns, fd)) {
      assert t.users[i].client == s.users[i].client;
      assert !Linked(t);
    }
  }

  // The kernel hands out a descriptor only when it is not in use, and clients[] has room.
  predicate AcceptGuard(s: State, fd: int)
  {
    && (forall j :: 0 <= j < |s.conns| && s.conns[j].fd == fd ==> !s.conns[j].open)
    && (SlotOf(s.conns, fd) < |s.conns| || |s.conns| < MAX_CLIENTS)
  }

  // Then pick_client frees no connection that a user points at.
  lemma FreedSlotUnreferenced(s: State, fd: int)
    requires Inv(s) && AcceptGuard(s, fd)
    ensures Safe(s, Accept(fd))
    ensures forall i :: 0 <= i < |s.users| ==> s.users[i].client != Some(SlotOf(s.conns, fd))
  {
  }

  // --------------------------------------------------------------- logging in

  // The connection is open and no other user is attached to it. The code checks neither.
  predicate LoginGuard(s: State, j: nat, u: nat)
    requires j < |s.conns|
  {
    s.conns[j].open && forall v :: 0 <= v < |s.users| && v != u ==> s.users[v].client != Some(j)
  }

  lemma AttachInv(s: State, u: nat, j: nat)
    requires Inv(s) && u < |s.users| && j < |s.conns|
    ensures Inv(Attach(s, u, j)) <==> LoginGuard(s, j, u)
  {
    var t := Attach(s, u, j);
    forall i | 0 <= i < |t.users| ensures AccountOk(t, i) {
      assert AccountOk(s, i);
    }
    if !LoginGuard(s, j, u) {
      if s.conns[j].open {
        var v :| 0 <= v < |s.users| && v != u && s.users[v].client == Some(j);
        assert t.users[v].client == Some(j) && t.conns[j].user == Some(u);
      } else {
        assert t.users[u].client == Some(j) && !t.conns[j].open;
      }
      assert !Linked(t);
    }
  }

  lemma AuthenticateInv(s: State, u: nat, a: Account)
    requires Inv(s) && u < |s.users|
    requires a == s.users[u].(attempts := a.attempts, lastBlocked := a.lastBlocked,
                              lastActive := a.lastActive, lastLoggedIn := a.lastLoggedIn)
    requires 0 <= a.attempts <= 2
    ensures Inv(s.(users := s.users[u := a]))
  {
    var t := s.(users := s.users[u := a]);
    forall i | 0 <= i < |t.users| ensures AccountOk(t, i) {
      assert AccountOk(s, i);
    }
  }

  // A login keeps the invariant exactly when it fails or its connection is open and free.
  lemma LoginInvIff(s: State, j: nat, username: Name, password: Name, now: int)
    requires Inv(s) && j < |s.conns|
    ensures Inv(LoginOn(s, j, username, password, now).0)
      <==> (LoginGranted(s, username, password, now) ==> LoginGuard(s, j, FindUser(s.users, username).value))
  {
    if FindUser(s.users, username).Some? {
      var u := FindUser(s.users, username).value;
      var (a, verdict) := Authenticate(s.users[u], password, Online(s, u, now), s.blockDuration, now);
      assert AccountOk(s, u);
      AuthenticateInv(s, u, a);
      LoginEffect(s, j, username, password, now);
      hide LoginOn, FindUser, Authenticate, Linked, DistinctFds, AccountOk;
      var t := s.(users := s.users[u := a]);
      var after := LoginOn(s, j, username, password, now).0;
      if verdict.Granted? {
        SameInv(Attach(t, u, j), after);
        AttachInv(t, u, j);
        hide Inv;
        assert LoginGuard(t, j, u) <==> LoginGuard(s, j, u);
      } else {
        SameInv(t, after);
      }
    }
  }

  // -------------------------------------------------------------- block lists

  function Without<T(==)>(list: seq<T>, u: T): seq<T>
  {
    if list == [] then []
    else if list[0] == u then Without(list[1..], u)
    else [list[0]] + Without(list[1..], u)
  }

  lemma {:induction false} WithoutAbsent<T>(list: seq<T>, u: T)
    requires u !in list
    ensures Without(list, u) == list
  {
    if list != [] {
      WithoutAbsent(list[1..], u);
    }
  }

  lemma {:induction false} WithoutElements<T>(list: seq<T>, u: T)
    ensures forall x :: x in Without(list, u) <==> x in list && x != u
    ensures NoDuplicates(list) ==> NoDuplicates(Without(list, u))
  {
    if list != [] {
      WithoutElements(list[1..], u);
      assert forall x :: x in list <==> x == list[0] || x in list[1..];
      if NoDuplicates(list) {
        assert NoDuplicates(list[1..]) by {
          assert forall i :: 0 <= i < |list| - 1 ==> list[1..][i] == list[i + 1];
        }
        assert list[0] !in list[1..];
      }
    }
  }

  predicate AdjacentPair<T(==)>(list: seq<T>, u: T)
  {
    exists i :: 0 <= i < |list| - 1 && list[i] == u && list[i + 1] == u
  }

  lemma PairInTail<T>(list: seq<T>, u: T)
    requires list != []
    ensures AdjacentPair(list, u) <==> AdjacentPair(list[1..], u) || (|list| > 1 && list[0] == u && list[1] == u)
  {
    if AdjacentPair(list[1..], u) {
      var i :| 0 <= i < |list| - 2 && list[1..][i] == u && list[1..][i + 1] == u;
      assert list[i + 1] == u && list[i + 2] == u;
    }
    if i :| 0 <= i < |list| - 1 && list[i] == u && list[i + 1] == u {
      assert i > 0 ==> list[1..][i - 1] == u && list[1..][i] == u;
    }
  }

  lemma SameHead<T>(x: T, a: seq<T>, b: seq<T>)
    ensures [x] + a == [x] + b <==> a == b
  {
    assert ([x] + a)[1..] == a && ([x] + b)[1..] == b;
  }

  // The skipping walk removes exactly the given user, and keeps the order of the others, if
  // and only if the list does not hold that user twice in a row; otherwise it leaves one behind.
  lemma {:induction false} UnblockExactIff<T>(list: seq<T>, u: T)
    ensures UnblockWalk(list, u) == Without(list, u) <==> !AdjacentPair(list, u)
    ensures u in UnblockWalk(list, u) <==> AdjacentPair(list, u)
    decreases |list|
  {
    WithoutElements(list, u);
    if list != [] {
      PairInTail(list, u);
      if list[0] != u {
        UnblockExactIff(list[1..], u);
        SameHead(list[0], UnblockWalk(list[1..], u), Without(list[1..], u));
      } else if |list| > 1 {
        PairInTail(list[1..], u);
        assert list[1..][1..] == list[2..] && list[1..][0] == list[1];
        UnblockExactIff(list[2..], u);
        SameHead(list[1], UnblockWalk(list[2..], u), Without(list[2..], u));
      }
    }
  }

  // Lists without duplicates hold nobody twice in a row.
  lemma UnblockRemoves<T>(list: seq<T>, u: T)
    requires NoDuplicates(list)
    ensures UnblockWalk(list, u) == Without(list, u)
  {
    UnblockExactIff(list, u);
  }

  lemma BlockInv(s: State, i: nat, u: nat)
    requires Inv(s) && i < |s.users| && u < |s.users|
    ensures var list := s.users[i].blocked;
      && Inv(SetBlocked(s, i, BlockUser(i, list, u)))
      && Inv(SetBlocked(s, i, UnblockWalk(list, u)))
  {
    var list := s.users[i].blocked;
    assert AccountOk(s, i);
    UnblockRemoves(list, u);
    WithoutElements(list, u);
    SetBlockedInv(s, i, BlockUser(i, list, u));
    SetBlockedInv(s, i, UnblockWalk(list, u));
  }

  lemma SetBlockedInv(s: State, i: nat, blocked: seq<nat>)
    requires Inv(s) && i < |s.users|
    requires NoDuplicates(blocked) && i !in blocked && forall u <- blocked :: u < |s.users|
    ensures Inv(SetBlocked(s, i, blocked))
  {
    var t := SetBlocked(s, i, blocked);
    forall k | 0 <= k < |t.users| ensures AccountOk(t, k) {
      assert AccountOk(s, k);
    }
  }

  // ------------------------------------------------------------------ steps

  lemma MemberCommandInv(s: State, j: nat, me: nat, request: Request, now: int)
    requires Inv(s) && j < |s.conns| && me < |s.users| && !request.Login?
    ensures Inv(MemberCommand(s, j, me, request, now).0)
  {
    hide FanOut, LogoutUser, UnblockWalk, LoggedInAfter, SearchFile, Linked, DistinctFds;
    match request
    case Broadcast(text) =>
      FanOutMail(s, me, Chat(me, text), now, |s.users|);
      InvCarries(s, FanOut(s, me, Chat(me, text), now, |s.users|));
    case Direct(to, text) =>
      var found := FindUser(s.users, to);
      if found.Some? {
        InvCarries(s, Deliver(s, found.value, Chat(me, text), now));
      }
    case Block(username) =>
      var found := FindUser(s.users, username);
      if found.Some? { BlockInv(s, me, found.value); }
    case Unblock(username) =>
      var found := FindUser(s.users, username);
      if found.Some? { BlockInv(s, me, found.value); }
    case WhoElse(_, _) =>
    case Logout =>
      CloseInv(s, j, now);
    case RegFile(filename, chunks) =>
      var (files, added) := Add(s.files, filename, chunks);
      if added.Some? {
        InvCarries(s, RegFileCommand(s, j, filename, chunks).0);
      }
    case RegChunk(filename, indices) =>
      var found := Find(s.files, filename);
      if found.Some? {
        InvCarries(s, RegChunkCommand(s, j, filename, indices).0);
      }
    case Search(_, _) =>
  }

  // What an event must meet; the code checks none of it.
  predicate Guard(s: State, e: Event)
  {
    match e
    case Accept(fd) => Safe(s, e)
    case Command(j, Login(username, password), now) =>
      && j < |s.conns|
      && (LoginGranted(s, username, password, now) ==> LoginGuard(s, j, FindUser(s.users, username).value))
    case _ => InTable(s, e)
  }

  lemma CommandInvIff(s: State, j: nat, request: Request, now: int)
    requires Inv(s) && j < |s.conns|
    ensures Inv(DoCommand(s, j, request, now)) <==> Guard(s, Command(j, request, now))
  {
    hide LoginOn, MemberCommand, Linked, DistinctFds, AccountOk;
    var t := RunCommand(s, j, request, now).0;
    if request.Login? {
      LoginInvIff(s, j, request.username, request.password, now);
    } else if ConnOnline(s, j, now) {
      MemberCommandInv(s, j, s.conns[j].user.value, request, now);
    }
    assert Inv(t) <==> Guard(s, Command(j, request, now));
    CommandTail(s, j, request, now);
    hide RunCommand, DoCommand, LoginGuard, LoginGranted;
    SameInv(t, DoCommand(s, j, request, now));
  }

  // Every event in the table keeps the invariant if and only if it meets its guard.
  lemma StepInvIff(s: State, e: Event)
    requires Inv(s) && InTable(s, e)
    ensures Inv(Step(s, e)) <==> Guard(s, e)
  {
    match e
    case Accept(fd) => AcceptInvIff(s, fd);
    case Disconnect(j, now) => CloseInv(s, j, now);
    case Command(j, request, now) => CommandInvIff(s, j, request, now);
    case Expire(j, now) => ExpireInv(s, j, now);
    case Writable(j, taken, takenOwn, now) => SendInv(s, j, taken, takenOwn, now);
  }

  lemma StepInv(s: State, e: Event)
    requires Inv(s) && Guard(s, e)
    ensures InTable(s, e) && Inv(Step(s, e))
  {
    StepInvIff(s, e);
  }

  lemma SendInv(s: State, j: nat, taken: nat, takenOwn: nat, now: int)
    requires Inv(s) && j < |s.conns|
    ensures Inv(SendBuffers(s, j, taken, takenOwn, now))
  {
    InvCarries(s, SendBuffers(s, j, taken, takenOwn, now));
  }

  // ------------------------------------------------------------------- runs

  // The guard holds before every event.
  ghost predicate Guarded(s: State, es: seq<Event>)
    requires Scoped(s)
    ensures Guarded(s, es) ==> Possible(s, es)
    decreases |es|
  {
    es == [] || (InTable(s, es[0]) && Guard(s, es[0]) && Guarded(Step(s, es[0]), es[1..]))
  }

  // One more event.
  lemma {:induction false} Extend(s: State, es: seq<Event>, e: Event)
    requires Scoped(s) && Guarded(s, es) && InTable(Run(s, es), e) && Guard(Run(s, es), e)
    ensures Guarded(s, es + [e]) && Run(s, es + [e]) == Step(Run(s, es), e)
    decreases |es|
  {
    hide Step, Guard;
    if es == [] {
      assert [e][1..] == [] && [] + [e] == [e];
      assert Guarded(Step(s, e), []) && Run(Step(s, e), []) == Step(s, e);
    } else {
      assert (es + [e])[1..] == es[1..] + [e];
      Extend(Step(s, es[0]), es[1..], e);
    }
  }

  // The invariant holds at every moment of the run.
  ghost predicate AlwaysInv(s: State, es: seq<Event>)
    requires Scoped(s) && Possible(s, es)
    decreases |es|
  {
    Inv(s) && (es == [] || AlwaysInv(Step(s, es[0]), es[1..]))
  }

  // It does if and only if every event meets its guard, and then the objects can serve the run.
  lemma {:induction false} RunInvIff(s: State, es: seq<Event>)
    requires Inv(s) && Possible(s, es)
    ensures AlwaysInv(s, es) <==> Guarded(s, es)
    ensures Guarded(s, es) ==> Inv(Run(s, es)) && Servable(s, es)
    decreases |es|
  {
    hide Linked, DistinctFds, AccountOk, Step;
    if es != [] {
      StepInvIff(s, es[0]);
      if Guard(s, es[0]) {
        RunInvIff(Step(s, es[0]), es[1..]);
      }
    }
  }

  lemma RunInv(s: State, es: seq<Event>)
    requires Inv(s) && Guarded(s, es)
    ensures Inv(Run(s, es))
  {
    RunInvIff(s, es);
  }

  // A freshly built server: no connections, new accounts.
  predicate Initial(s: State)
  {
    && s.conns == [] && s.files == NO_FILES
    && forall i :: 0 <= i < |s.users| ==>
         s.users[i] == Account(s.users[i].name, s.users[i].password, -1, -1, -1, 0, None, [], [])
  }

  lemma InitialInv(s: State)
    requires Initial(s)
    ensures Inv(s)
  {
  }

  // Over every guarded run from a fresh server: a session's connection is open and points
  // back at its user, no two users share a connection, no user points at a slot that an
  // accept would free, and looking up a connection's descriptor finds that connection.
  lemma SessionSafety(s: State, es: seq<Event>)
    requires Initial(s) && Guarded(s, es)
    ensures var t := Run(s, es);
      && (forall i :: 0 <= i < |t.users| && t.users[i].client.Some? ==>
            var c := t.users[i].client.value;
            c < |t.conns| && t.conns[c].open && t.conns[c].user == Some(i))
      && (forall i, k :: 0 <= i < k < |t.users| && t.users[i].client.Some? ==> t.users[i].client != t.users[k].client)
      && (forall fd, i :: AcceptGuard(t, fd) && 0 <= i < |t.users| ==> t.users[i].client != Some(SlotOf(t.conns, fd)))
      && (forall j :: 0 <= j < |t.conns| ==> SlotOf(t.conns, t.conns[j].fd) == j)
  {
    hide Guarded, Run, AccountOk;
    InitialInv(s);
    RunInv(s, es);
    var t := Run(s, es);
    forall fd, i | AcceptGuard(t, fd) && 0 <= i < |t.users|
      ensures t.users[i].client != Some(SlotOf(t.conns, fd))
    {
      FreedSlotUnreferenced(t, fd);
    }
  }
}
