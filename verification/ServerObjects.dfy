// The server's objects carry out the steps of the state machine: every method here is
// proved to do to the heap exactly what the function of the same step does to the value.
module ServerObjects {
  import opened Basics
  import opened FileTable
  import opened Sessions
  import opened SessionInvariant
  import opened Tries
  import opened Entities
  import opened UserIndex
  import opened FileIndex

  class Server {
    const db: UserDb
    const fileDb: FileDb
    var clients: seq<Client>    // clients[0..nclients]

    // --------------------------------------------------------- abstraction

    // A user's position in db->first.
    function Id(u: User): nat
      reads db
    {
      if u.rank < |db.first| then |db.first| - 1 - u.rank else 0
    }

    ghost function Ids(list: seq<User>): (ids: seq<nat>)
      reads db
      ensures |ids| == |list| && forall k :: 0 <= k < |list| ==> ids[k] == Id(list[k])
    {
      if list == [] then [] else [Id(list[0])] + Ids(list[1..])
    }

    ghost function AccountOf(u: User): Account
      reads db, u
    {
      Account(u.username, u.password, u.lastLoggedIn, u.lastActive, u.lastBlocked, u.attempts,
              if u.client == null then None else Some(u.client.slot),
              Ids(u.blocked), u.buffer)
    }

    ghost function ConnOf(c: Client): Conn
      reads db, c
    {
      Conn(c.fd, c.open, if c.user == null then None else Some(Id(c.user)), c.out, c.chunkIds, c.sent)
    }

    ghost function State(): State
      reads this, db, db.first, clients, fileDb
    {
      Sessions.State(
        seq(|db.first|, i requires 0 <= i < |db.first| reads db, db.first => AccountOf(db.first[i])),
        seq(|clients|, j requires 0 <= j < |clients| reads this, db, clients => ConnOf(clients[j])),
        fileDb.Files(), db.blockDuration, db.loginTimeout)
    }

    ghost predicate Known(u: User?)
      reads db
    {
      u != null && u in db.first
    }

    ghost predicate InUse(c: Client?)
      reads this
    {
      c != null && c in clients
    }

    // Ranks and slots number the objects, and every pointer leads to one of them.
    ghost predicate Shape()
      reads this, db, db.first, clients, fileDb
      ensures Shape() ==> Scoped(State()) && |State().users| == |db.first| && |State().conns| == |clients|
      ensures Shape() ==> forall u <- db.first :: Id(u) < |State().users|
      ensures Shape() ==> forall c <- clients :: c.slot < |State().conns|
    {
      && (forall i :: 0 <= i < |db.first| ==> db.first[i].rank == |db.first| - 1 - i)
      && (forall j :: 0 <= j < |clients| ==> clients[j].slot == j)
      && (forall u <- db.first :: u.client != null ==> InUse(u.client))
      && (forall u <- db.first :: forall b <- u.blocked :: Known(b))
      && (forall c <- clients :: c.user != null ==> Known(c.user))
    }

    lemma NumberedUser(u: User)
      requires Shape() && Known(u)
      ensures Id(u) < |db.first| == |State().users|
      ensures db.first[Id(u)] == u && State().users[Id(u)] == AccountOf(u)
    {
    }

    lemma NumberedClient(c: Client)
      requires Shape() && InUse(c)
      ensures c.slot < |clients| == |State().conns|
      ensures clients[c.slot] == c && State().conns[c.slot] == ConnOf(c)
    {
    }

    lemma IdAt(i: nat)
      requires Shape() && i < |db.first|
      ensures Known(db.first[i]) && Id(db.first[i]) == i < |State().users| == |db.first|
    {
    }

    // Both tries are sound, and no object of theirs is a user or a connection.
    ghost predicate Indexes()
      reads this, db, db.root, db.root.Repr, fileDb, fileDb.root, fileDb.root.Repr
    {
      && db.Valid() && fileDb.Valid()
      && db.root.Repr !! fileDb.root.Repr
      && db.root !in fileDb.root.Repr && fileDb.root !in db.root.Repr
      && db !in fileDb.root.Repr && fileDb !in db.root.Repr
      && this !in db.root.Repr && this !in fileDb.root.Repr
      && (forall u <- db.first :: u !in db.root.Repr && u !in fileDb.root.Repr)
      && (forall c <- clients :: c !in db.root.Repr && c !in fileDb.root.Repr)
    }

    // main: the user index as built from the credentials, no files, no connections.
    constructor (db: UserDb)
      requires db.Valid() && db.root !in db.root.Repr
      requires forall u <- db.first :: u !in db.root.Repr
      requires forall u <- db.first ::
        && u.lastLoggedIn == u.lastActive == u.lastBlocked == -1 && u.attempts == 0
        && u.client == null && u.blocked == [] && u.buffer == []
      ensures this.db == db && fresh(fileDb) && fresh(fileDb.root) && fresh(fileDb.root.Repr)
      ensures Shape() && Indexes() && Initial(State())
      ensures State().blockDuration == db.blockDuration && State().loginTimeout == db.loginTimeout
      ensures |State().users| == |db.first|
    {
      this.db := db;
      fileDb := new FileDb();
      clients := [];
    }

    // ---------------------------------------------------------- frame lemmas

    twostate lemma SameAccounts(u: User?)
      requires unchanged(this, db, fileDb)
      requires forall v <- db.first :: v != u ==> unchanged(v)
      ensures |State().users| == |old(State()).users|
      ensures forall i :: 0 <= i < |db.first| && db.first[i] != u ==> State().users[i] == old(State()).users[i]
    {
      forall i | 0 <= i < |db.first| && db.first[i] != u ensures State().users[i] == old(State()).users[i] {
        var v := db.first[i];
        assert v in db.first && unchanged(v);
        assert AccountOf(v) == old(AccountOf(v));
      }
    }

    twostate lemma SameConns(c: Client?)
      requires unchanged(this, db, fileDb)
      requires forall d <- clients :: d != c ==> unchanged(d)
      ensures |State().conns| == |old(State()).conns|
      ensures forall j :: 0 <= j < |clients| && clients[j] != c ==> State().conns[j] == old(State()).conns[j]
    {
      forall j | 0 <= j < |clients| && clients[j] != c ensures State().conns[j] == old(State()).conns[j] {
        var d := clients[j];
        assert d in clients && unchanged(d);
        assert ConnOf(d) == old(ConnOf(d));
      }
    }

    // Only the account of u changed.
    twostate lemma UserChanged(u: User)
      requires old(Shape()) && Shape() && Known(u)
      requires unchanged(this, db, fileDb)
      requires forall v <- db.first :: v != u ==> unchanged(v)
      requires forall c <- clients :: unchanged(c)
      ensures Id(u) < |old(State()).users| && old(State()).users[Id(u)] == old(AccountOf(u))
      ensures State() == old(State()).(users := old(State()).users[Id(u) := AccountOf(u)])
    {
      SameAccounts(u);
      SameConns(null);
      var s, t := old(State()), State();
      assert t.users == s.users[Id(u) := AccountOf(u)];
      assert t.conns == s.conns;
    }

    // Only the connection c changed.
    twostate lemma ClientChanged(c: Client)
      requires old(Shape()) && Shape() && InUse(c)
      requires unchanged(this, db, fileDb)
      requires forall v <- db.first :: unchanged(v)
      requires forall d <- clients :: d != c ==> unchanged(d)
      ensures c.slot < |old(State()).conns| && old(State()).conns[c.slot] == old(ConnOf(c))
      ensures State() == old(State()).(conns := old(State()).conns[c.slot := ConnOf(c)])
    {
      SameAccounts(null);
      SameConns(c);
      var s, t := old(State()), State();
      assert t.users == s.users;
      assert t.conns == s.conns[c.slot := ConnOf(c)];
    }

    // ------------------------------------------------- single pointer writes

    method Post(c: Client, r: Response)
      requires Shape() && InUse(c)
      modifies c`out
      ensures Shape() && State() == Sessions.Post(old(State()), c.slot, r)
    {
      c.out := c.out + [r];
      ClientChanged(c);
    }

    method Enqueue(u: User, r: Response)
      requires Shape() && Known(u)
      modifies u`buffer
      ensures Shape()
      ensures var s := old(State()); var i := Id(u);
        State() == s.(users := s.users[i := s.users[i].(buffer := s.users[i].buffer + [r])])
    {
      u.buffer := u.buffer + [r];
      UserChanged(u);
    }

    method DetachUser(u: User)
      requires Shape() && Known(u) && u.client != null
      modifies u`client, u.client`user
      ensures Shape() && u.client == null && State() == Sessions.Detach(old(State()), Id(u))
    {
      var c := u.client;
      c.user := null;
      ClientChanged(c);
      label cleared:
      u.client := null;
      UserChanged@cleared(u);
    }

    method AttachUser(u: User, c: Client)
      requires Shape() && Known(u) && InUse(c)
      modifies u`client, c`user
      ensures Shape() && State() == Sessions.Attach(old(State()), Id(u), c.slot)
    {
      c.user := u;
      ClientChanged(c);
      label pointed:
      u.client := c;
      UserChanged@pointed(u);
    }

    method CloseFd(c: Client)
      requires Shape() && InUse(c)
      modifies c`open
      ensures Shape()
      ensures var s := old(State()); State() == s.(conns := s.conns[c.slot := s.conns[c.slot].(open := false)])
    {
      c.open := false;
      ClientChanged(c);
    }

    // -------------------------------------------------------------- queries

    predicate IsUserLoggedIn(user: User?, now: int)
      reads db, user
    {
      user != null && user.client != null && user.lastActive + db.loginTimeout > now
    }

    lemma OnlineAgrees(u: User, now: int)
      requires Shape() && Known(u)
      ensures Id(u) < |State().users|
      ensures IsUserLoggedIn(u, now) <==> Online(State(), Id(u), now)
      ensures u.client != null ==> State().users[Id(u)].client == Some(u.client.slot)
    {
    }

    lemma IdInjective(u: User, v: User)
      requires Shape() && Known(u) && Known(v)
      ensures Id(u) == Id(v) <==> u == v
    {
    }

    // The walk over by->blocked.
    method HasBlockedUser(owner: User, u: User) returns (b: bool)
      requires Shape() && Known(owner) && Known(u)
      ensures Id(owner) < |State().users|
      ensures b <==> HasBlocked(State(), Id(owner), Id(u))
    {
      NumberedUser(owner);
      b := false;
      var k := 0;
      while k < |owner.blocked|
        invariant 0 <= k <= |owner.blocked|
        invariant forall i :: 0 <= i < k ==> owner.blocked[i] != u
      {
        if owner.blocked[k] == u {
          assert Ids(owner.blocked)[k] == Id(u);
          return true;
        }
        k := k + 1;
      }
      forall i | 0 <= i < |owner.blocked| ensures Ids(owner.blocked)[i] != Id(u) {
        assert owner.blocked[i] in owner.blocked;
        IdInjective(owner.blocked[i], u);
      }
    }

    // ------------------------------------------------------------- delivery

    method SendToUser(u: User, r: Response, now: int)
      requires Shape() && Known(u)
      modifies db.first`buffer, clients`out
      ensures Shape() && State() == Sessions.Deliver(old(State()), Id(u), r, now)
    {
      OnlineAgrees(u, now);
      if u.client != null && IsUserLoggedIn(u, now) {
        Post(u.client, r);
      } else {
        Enqueue(u, r);
      }
    }

    // One round of the notification loop.
    method NotifyOne(u: User, v: User, r: Response, now: int)
      requires Shape() && Known(u) && Known(v) && !r.Chat?
      modifies db.first`buffer, clients`out
      ensures Shape()
      ensures var s := old(State());
        State() == if Hears(s, Id(u), r, Id(v), now) then Sessions.Deliver(s, Id(v), r, now) else s
    {
      hide Server.State, Server.Shape, Online, HasBlocked, Sessions.Deliver;
      IdInjective(u, v);
      OnlineAgrees(v, now);
      var muted := HasBlockedUser(u, v);
      if v != u && IsUserLoggedIn(v, now) && !muted {
        SendToUser(v, r, now);
      }
    }

    // The loop that tells everyone of a login or logout.
    method NotifyOthers(u: User, r: Response, now: int)
      requires Shape() && Known(u) && !r.Chat?
      modifies db.first`buffer, clients`out
      ensures Shape() && State() == FanOut(old(State()), Id(u), r, now, |db.first|)
    {
      hide Server.State, Server.Shape, Hears, Sessions.Deliver;
      var i := 0;
      while i < |db.first|
        invariant 0 <= i <= |db.first|
        invariant Shape() && State() == FanOut(old(State()), Id(u), r, now, i)
      {
        IdAt(i);
        NotifyOne(u, db.first[i], r, now);
        i := i + 1;
      }
    }

    // One round of the broadcast loop; false when the recipient has blocked the sender.
    method BroadcastOne(me: User, v: User, r: Response, now: int) returns (success: bool)
      requires Shape() && Known(me) && Known(v) && r.Chat?
      modifies db.first`buffer, clients`out
      ensures Shape()
      ensures var s := old(State());
        State() == if Hears(s, Id(me), r, Id(v), now) then Sessions.Deliver(s, Id(v), r, now) else s
      ensures success <==> !Refuses(old(State()), Id(me), now, Id(v))
    {
      hide Server.State, Server.Shape, Online, HasBlocked, Sessions.Deliver;
      success := true;
      IdInjective(me, v);
      OnlineAgrees(v, now);
      if v != me && IsUserLoggedIn(v, now) {
        var muted := HasBlockedUser(v, me);
        if muted {
          success := false;
        } else {
          SendToUser(v, r, now);
        }
      }
    }

    // The broadcast loop; success falls when some recipient has blocked the sender.
    method BroadcastLoop(me: User, r: Response, now: int) returns (success: bool)
      requires Shape() && Known(me) && r.Chat?
      modifies db.first`buffer, clients`out
      ensures Shape() && State() == FanOut(old(State()), Id(me), r, now, |db.first|)
      ensures success <==> !Refused(old(State()), Id(me), now, |db.first|)
    {
      hide Server.State, Server.Shape, Hears, Sessions.Deliver, Refuses;
      success := true;
      var i := 0;
      while i < |db.first|
        invariant 0 <= i <= |db.first|
        invariant Shape() && State() == FanOut(old(State()), Id(me), r, now, i)
        invariant success <==> !Refused(old(State()), Id(me), now, i)
      {
        IdAt(i);
        MailKeepsRefusal(old(State()), Id(me), r, now, i);
        var delivered := BroadcastOne(me, db.first[i], r, now);
        success := success && delivered;
        i := i + 1;
      }
    }

    // ------------------------------------------------------------- sessions

    method LogoutUser(user: User?, now: int)
      requires Shape() && (user != null ==> Known(user))
      modifies db.first`client, db.first`buffer, clients`user, clients`out
      ensures Shape()
      ensures State() == Sessions.LogoutUser(old(State()), if user == null then None else Some(Id(user)), now)
    {
      if user == null { return; }
      NumberedUser(user);
      if user.client == null { return; }
      DetachUser(user);
      NotifyOthers(user, LogoutNotice(Id(user)), now);
    }

    method CloseSocket(client: Client, now: int)
      requires Shape() && InUse(client)
      modifies db.first`client, db.first`buffer, clients`user, clients`out, clients`open
      ensures Shape() && State() == Sessions.Close(old(State()), client.slot, now)
    {
      hide Server.State, Server.Shape, Sessions.LogoutUser;
      ConnOnlineAgrees(client, now);
      LogoutUser(client.user, now);
      CloseFd(client);
    }

    // One round of time_thread.
    method ExpireClient(client: Client, now: int)
      requires Shape() && InUse(client)
      modifies db.first`client, db.first`buffer, clients`user, clients`out
      ensures Shape() && State() == ExpireAt(old(State()), client.slot, now)
    {
      hide Server.State, Server.Shape, Sessions.LogoutUser, Online;
      ConnOnlineAgrees(client, now);
      if client.user != null {
        OnlineAgrees(client.user, now);
        if !IsUserLoggedIn(client.user, now) {
          LogoutUser(client.user, now);
          Post(client, IdleExit);
        }
      }
    }

    // One pass of time_thread.
    method TimePass(now: int)
      requires Shape()
      modifies db.first`client, db.first`buffer, clients`user, clients`out
      ensures Shape() && State() == Sweep(old(State()), now, |clients|)
    {
      hide Server.State, Server.Shape, ExpireAt;
      var i := 0;
      while i < |clients|
        invariant 0 <= i <= |clients|
        invariant Shape() && State() == Sweep(old(State()), now, i)
      {
        SlotAt(i);
        ExpireClient(clients[i], now);
        i := i + 1;
      }
    }

    lemma SlotAt(j: nat)
      requires Shape() && j < |clients|
      ensures InUse(clients[j]) && clients[j].slot == j < |State().conns| == |clients|
    {
    }

    // -------------------------------------------------------------- lookups

    lemma FindAgrees(username: Name, k: nat)
      requires Shape() && k <= |db.first|
      ensures var u := FirstMatch(db.first[k..], username);
        && (u != null ==> Known(u))
        && FindUserFrom(State().users, username, k) == if u == null then None else Some(Id(u))
      decreases |db.first| - k
    {
      if k < |db.first| {
        IdAt(k);
        NumberedUser(db.first[k]);
        assert db.first[k..][1..] == db.first[k + 1..];
        FindAgrees(username, k + 1);
      }
    }

    method FindAccount(username: Name) returns (u: User?)
      requires Shape() && Indexes()
      ensures u != null ==> Known(u) && Id(u) < |State().users|
      ensures FindUser(State().users, username) == if u == null then None else Some(Id(u))
    {
      hide Server.State, Server.Shape;
      u := db.FindUser(username);
      assert db.first[0..] == db.first;
      FindAgrees(username, 0);
    }

    // ---------------------------------------------------------------- login

    // The checks and field updates of login().
    method ComparePassword(user: User, password: Name, now: int) returns (verdict: Verdict)
      modifies user`attempts, user`lastBlocked, user`lastActive, user`lastLoggedIn
      ensures (AccountOf(user), verdict)
        == Authenticate(old(AccountOf(user)), password, old(IsUserLoggedIn(user, now)), db.blockDuration, now)
    {
      if now < user.lastBlocked { return Locked; }
      if user.password != password {
        user.attempts := user.attempts + 1;
        if user.attempts == 3 {
          user.lastBlocked := now + db.blockDuration;
          user.attempts := 0;
          return Locked;
        }
        return Mismatch;
      }
      if IsUserLoggedIn(user, now) { return InPlace; }
      user.attempts := 0;
      user.lastActive, user.lastLoggedIn := now, now;
      verdict := Granted;
    }

    method TryPassword(user: User, password: Name, now: int) returns (verdict: Verdict)
      requires Shape() && Known(user)
      modifies user`attempts, user`lastBlocked, user`lastActive, user`lastLoggedIn
      ensures Shape() && Id(user) < |old(State()).users|
      ensures var s := old(State()); var i := Id(user);
        var (a, v) := Authenticate(s.users[i], password, Online(s, i, now), s.blockDuration, now);
        State() == s.(users := s.users[i := a]) && verdict == v
    {
      hide Authenticate;
      OnlineAgrees(user, now);
      verdict := ComparePassword(user, password, now);
      UserChanged(user);
    }

    // login(), for a user that was found.
    method CheckLogin(user: User, password: Name, now: int) returns (verdict: Verdict)
      requires Shape() && Known(user)
      modifies db.first, clients`out
      ensures Shape() && Id(user) < |old(State()).users|
      ensures (State(), verdict) == LoginCheck(old(State()), Id(user), password, now)
    {
      hide Server.State, Server.Shape;
      verdict := TryPassword(user, password, now);
      if verdict == Granted {
        NotifyOthers(user, LoginNotice(Id(user)), now);
      }
    }

    method CmdLogin(client: Client, username: Name, password: Name, now: int) returns (r: Response)
      requires Shape() && Indexes() && InUse(client)
      modifies db.first, clients`out, clients`user
      ensures Shape() && Indexes()
      ensures (State(), r) == LoginOn(old(State()), client.slot, username, password, now)
    {
      hide Server.State, Server.Shape, LoginCheck, Sessions.Attach, FindUser;
      var user := FindAccount(username);
      if user == null { return NoSuchUser; }
      var verdict := CheckLogin(user, password, now);
      match verdict
      case Locked => r := AccountLocked;
      case Mismatch => r := WrongPassword;
      case InPlace => r := SessionInPlace;
      case Granted =>
        AttachUser(user, client);
        r := Welcome;
    }

    // ------------------------------------------------------------- messages

    // sendMessage to one user; false when the recipient has blocked the sender.
    method SendMessage(to: User, me: User, r: Response, now: int) returns (sent: bool)
      requires Shape() && Known(to) && Known(me)
      modifies db.first`buffer, clients`out
      ensures Shape() && Id(to) < |old(State()).users|
      ensures sent <==> !HasBlocked(old(State()), Id(to), Id(me))
      ensures State() == if sent then Sessions.Deliver(old(State()), Id(to), r, now) else old(State())
    {
      hide Server.State, Server.Shape, HasBlocked, Sessions.Deliver;
      var muted := HasBlockedUser(to, me);
      if muted { return false; }
      SendToUser(to, r, now);
      sent := true;
    }

    // ---------------------------------------------------------- block lists

    method WriteBlocked(me: User, list: seq<User>)
      requires Shape() && Known(me) && forall b <- list :: Known(b)
      modifies me`blocked
      ensures Shape() && Id(me) < |old(State()).users|
      ensures State() == SetBlocked(old(State()), Id(me), Ids(list))
    {
      me.blocked := list;
      UserChanged(me);
    }

    // unblockUser's walk: a removed node's successor is stepped over unchecked.
    method UnblockList(list: seq<User>, u: User) returns (r: seq<User>)
      ensures r == UnblockWalk(list, u)
    {
      r := list;
      var i := 0;
      while i < |r|
        invariant 0 <= i <= |r|
        invariant UnblockWalk(list, u) == r[..i] + UnblockWalk(r[i..], u)
        decreases |r| - i
      {
        if r[i] == u {
          r := r[..i] + r[i + 1..];
          if i < |r| {
            StepOver(r, i);
            i := i + 1;
          }
        } else {
          StepOver(r, i);
          i := i + 1;
        }
      }
      assert r[..i] == r;
    }

    lemma IdsOfWalk(list: seq<User>, u: User)
      requires Shape() && Known(u) && forall b <- list :: Known(b)
      ensures Ids(UnblockWalk(list, u)) == UnblockWalk(Ids(list), Id(u))
      ensures forall b <- UnblockWalk(list, u) :: b in list
      decreases |list|
    {
      if list != [] {
        IdInjective(list[0], u);
        assert Ids(list)[1..] == Ids(list[1..]);
        if list[0] != u {
          IdsOfWalk(list[1..], u);
          assert ([list[0]] + UnblockWalk(list[1..], u))[1..] == UnblockWalk(list[1..], u);
        } else if |list| > 1 {
          IdsOfWalk(list[2..], u);
          assert Ids(list)[2..] == Ids(list[2..]);
          assert ([list[1]] + UnblockWalk(list[2..], u))[1..] == UnblockWalk(list[2..], u);
        }
      }
    }

    lemma IdsMembers(list: seq<User>, u: User)
      requires Shape() && Known(u) && forall b <- list :: Known(b)
      ensures Id(u) in Ids(list) <==> u in list
    {
      if Id(u) in Ids(list) {
        var k :| 0 <= k < |list| && Ids(list)[k] == Id(u);
        IdInjective(list[k], u);
      }
      if u in list {
        var k :| 0 <= k < |list| && list[k] == u;
        assert Ids(list)[k] == Id(u);
      }
    }

    method BlockUser(me: User, u: User)
      requires Shape() && Known(me) && Known(u)
      modifies me`blocked
      ensures Shape() && Id(me) < |old(State()).users|
      ensures var s := old(State()); var i := Id(me);
        State() == SetBlocked(s, i, Sessions.BlockUser(i, s.users[i].blocked, Id(u)))
    {
      NumberedUser(me);
      IdInjective(u, me);
      IdsMembers(me.blocked, u);
      var muted := HasBlockedUser(me, u);
      var list := me.blocked;
      if u != me && !muted {
        list := [u] + list;
        assert list[1..] == me.blocked;
      }
      WriteBlocked(me, list);
    }

    method UnblockUser(me: User, u: User)
      requires Shape() && Known(me) && Known(u)
      modifies me`blocked
      ensures Shape() && Id(me) < |old(State()).users|
      ensures State() == SetBlocked(old(State()), Id(me), UnblockWalk(old(State()).users[Id(me)].blocked, Id(u)))
    {
      NumberedUser(me);
      IdsOfWalk(me.blocked, u);
      var list := UnblockList(me.blocked, u);
      WriteBlocked(me, list);
    }

    // ---------------------------------------------------------- who is here

    lemma ListedAgrees(u: User, threshold: int, onlineOnly: bool, exclude: User, now: int)
      requires Shape() && Known(u) && Known(exclude)
      ensures Id(u) < |State().users|
      ensures (u != exclude && u.lastActive >= threshold && (!onlineOnly || IsUserLoggedIn(u, now)))
        <==> (Id(u) != Id(exclude) && State().users[Id(u)].lastActive >= threshold
              && (onlineOnly ==> Online(State(), Id(u), now)))
    {
      NumberedUser(u);
      IdInjective(u, exclude);
      OnlineAgrees(u, now);
    }

    method LoggedInUsersAfterTime(threshold: int, onlineOnly: bool, exclude: User, now: int) returns (list: seq<nat>)
      requires Shape() && Known(exclude)
      ensures list == LoggedInAfter(State(), threshold, onlineOnly, Id(exclude), now, |db.first|)
    {
      hide Server.State, Server.Shape, Online;
      list := [];
      var i := 0;
      while i < |db.first|
        invariant 0 <= i <= |db.first|
        invariant list == LoggedInAfter(State(), threshold, onlineOnly, Id(exclude), now, i)
      {
        var u := db.first[i];
        IdAt(i);
        ListedAgrees(u, threshold, onlineOnly, exclude, now);
        if u != exclude && u.lastActive >= threshold && (!onlineOnly || IsUserLoggedIn(u, now)) {
          list := list + [i];
        }
        i := i + 1;
      }
    }

    // ---------------------------------------------------------------- files

    method CmdRegFile(client: Client, filename: Name, chunks: uint32) returns (r: Response)
      requires Shape() && Indexes() && InUse(client)
      modifies fileDb, fileDb.root, fileDb.root.Repr, client`chunkIds
      ensures Shape() && Indexes()
      ensures fresh(fileDb.root.Repr - old(fileDb.root.Repr))
      ensures (State(), r) == RegFileCommand(old(State()), client.slot, filename, chunks)
    {
      hide Server.Shape, WithAllChunks;
      var rec := AddFileTo(filename, chunks);
      if rec.None? { return FileReply(false); }
      RegAllOn(client, rec.value);
      r := FileReply(true);
    }

    method RegAllOn(client: Client, rec: FileRec)
      requires Shape() && InUse(client)
      modifies client`chunkIds
      ensures Shape()
      ensures var s := old(State()); var j := client.slot;
        State() == SetChunkIds(s, j, WithAllChunks(s.conns[j].chunkIds, rec))
    {
      hide WithAllChunks;
      NumberedClient(client);
      RegAllFileChunk(client, rec);
      ClientChanged(client);
    }

    method RegSomeOn(client: Client, rec: FileRec, indices: seq<uint32>)
      requires Shape() && InUse(client)
      modifies client`chunkIds
      ensures Shape()
      ensures var s := old(State()); var j := client.slot;
        State() == SetChunkIds(s, j, WithChunks(s.conns[j].chunkIds, rec, indices))
    {
      hide WithChunks;
      NumberedClient(client);
      RegFileChunk(client, rec, indices);
      ClientChanged(client);
    }

    method AddFileTo(filename: Name, chunks: uint32) returns (rec: Option<FileRec>)
      requires Shape() && Indexes()
      modifies fileDb, fileDb.root, fileDb.root.Repr
      ensures Shape() && Indexes()
      ensures fresh(fileDb.root.Repr - old(fileDb.root.Repr))
      ensures State() == old(State()).(files := fileDb.Files())
      ensures (fileDb.Files(), rec) == Add(old(fileDb.Files()), filename, chunks)
    {
      rec := fileDb.AddFile(filename, chunks);
      FilesChanged();
    }

    twostate lemma FilesChanged()
      requires old(Shape()) && Shape()
      requires unchanged(this, db)
      requires forall v <- db.first :: unchanged(v)
      requires forall c <- clients :: unchanged(c)
      ensures State() == old(State()).(files := fileDb.Files())
    {
      forall i | 0 <= i < |db.first| ensures State().users[i] == old(State()).users[i] {
        var v := db.first[i];
        assert v in db.first && unchanged(v);
        assert AccountOf(v) == old(AccountOf(v));
      }
      forall j | 0 <= j < |clients| ensures State().conns[j] == old(State()).conns[j] {
        var d := clients[j];
        assert d in clients && unchanged(d);
        assert ConnOf(d) == old(ConnOf(d));
      }
      assert State().users == old(State()).users;
      assert State().conns == old(State()).conns;
    }

    method CmdRegChunk(client: Client, filename: Name, indices: seq<uint32>) returns (r: Response)
      requires Shape() && Indexes() && InUse(client)
      modifies client`chunkIds
      ensures Shape() && Indexes()
      ensures (State(), r) == RegChunkCommand(old(State()), client.slot, filename, indices)
    {
      hide Server.Shape, WithChunks;
      var rec := fileDb.FindFile(filename);
      if rec.None? { return FileReply(false); }
      RegSomeOn(client, rec.value, indices);
      r := ChunkReply(|indices|);
    }

    // --------------------------------------------------------------- search

    // What the search loop asks of the i-th user.
    method HoldingOf(i: nat, rec: FileRec, wanted: array<bool>, has: array<bool>, now: int)
      returns (online: bool, level: nat)
      requires Shape() && i < |db.first| && wanted != has && wanted.Length == has.Length == rec.chunks
      modifies has
      ensures online <==> Online(State(), i, now)
      ensures online ==> level == HoldingLevel(IdsOf(State(), i), rec, Marked(wanted[..]))
      ensures Marked(has[..]) == old(Marked(has[..])) + if online then HeldChunks(IdsOf(State(), i), rec) else {}
    {
      hide HoldingLevel, HeldChunks, Marked;
      var u := db.first[i];
      IdAt(i);
      OnlineAgrees(u, now);
      online, level := IsUserLoggedIn(u, now), 0;
      if online {
        NumberedClient(u.client);
        level := ClientHasFileChunks(u.client, rec, wanted, has);
      }
    }

    method UsersWithChunks(rec: FileRec, wanted: array<bool>, has: array<bool>, target: nat, now: int)
      returns (list: seq<nat>)
      requires Shape() && wanted != has && wanted.Length == has.Length == rec.chunks
      modifies has
      ensures list == Holders(State(), rec, Marked(wanted[..]), target, now, |db.first|)
      ensures Marked(has[..]) == old(Marked(has[..])) + Available(State(), rec, now, |db.first|)
    {
      hide Server.State, Server.Shape, HoldingLevel, HeldChunks, Marked;
      list := [];
      var i := 0;
      while i < |db.first|
        invariant 0 <= i <= |db.first|
        invariant list == Holders(State(), rec, Marked(wanted[..]), target, now, i)
        invariant Marked(has[..]) == old(Marked(has[..])) + Available(State(), rec, now, i)
      {
        var online, level := HoldingOf(i, rec, wanted, has, now);
        if online && level == target {
          list := list + [i];
        }
        i := i + 1;
      }
    }

    // The answer for a registered file: two masks, one pass over the users, one count.
    method SearchMasks(rec: FileRec, indices: seq<uint32>, now: int) returns (r: Response)
      requires Shape()
      ensures r == SearchFile(State(), rec, indices, now)
    {
      hide Server.State, Server.Shape, Holders, Available, Wanted, Marked;
      var wanted := NewMask(rec.chunks);
      var has := NewMask(rec.chunks);
      var target := MarkWanted(rec, indices, wanted);
      var holders := UsersWithChunks(rec, wanted, has, target, now);
      var available := CountMarked(has);
      r := SearchReply(rec.chunks, available, holders);
    }

    method CmdSearchFile(filename: Name, indices: seq<uint32>, now: int) returns (r: Response)
      requires Shape() && Indexes()
      ensures r == SearchCommand(State(), filename, indices, now)
    {
      hide Server.Shape, SearchFile;
      var found := fileDb.FindFile(filename);
      if found.None? { return FileReply(false); }
      r := SearchMasks(found.value, indices, now);
    }

    // -------------------------------------------------------------- commands

    method CmdMessage(me: User, to: Name, text: seq<byte>, now: int) returns (r: Option<Response>)
      requires Shape() && Indexes() && Known(me)
      modifies db.first`buffer, clients`out
      ensures Shape() && Indexes() && Id(me) < |old(State()).users|
      ensures (State(), r) == DirectMessage(old(State()), Id(me), to, text, now)
    {
      hide Server.State, Server.Shape, FindUser, HasBlocked, Sessions.Deliver;
      NumberedUser(me);
      var user := FindAccount(to);
      if user == null { return Some(NoSuchUser); }
      var sent := SendMessage(user, me, Chat(Id(me), text), now);
      r := if sent then None else Some(RecipientBlockedYou);
    }

    method CmdBroadcast(me: User, text: seq<byte>, now: int) returns (r: Option<Response>)
      requires Shape() && Indexes() && Known(me)
      modifies db.first`buffer, clients`out
      ensures Shape() && Indexes() && Id(me) < |old(State()).users|
      ensures (State(), r) == BroadcastMessage(old(State()), Id(me), text, now)
    {
      hide Server.State, Server.Shape, FanOut, Refused;
      NumberedUser(me);
      var success := BroadcastLoop(me, Chat(Id(me), text), now);
      r := if success then None else Some(SomeUndelivered);
    }

    method CmdBlock(me: User, username: Name) returns (r: Response)
      requires Shape() && Indexes() && Known(me)
      modifies me`blocked
      ensures Shape() && Indexes() && Id(me) < |old(State()).users|
      ensures (State(), r) == BlockCommand(old(State()), Id(me), username)
    {
      hide Server.State, Server.Shape, FindUser, HasBlocked, SetBlocked, Sessions.BlockUser;
      NumberedUser(me);
      var user := FindAccount(username);
      if user == null { return BlockReply(false); }
      IdInjective(user, me);
      if user == me { return BlockReply(false); }
      var muted := HasBlockedUser(me, user);
      if muted { return BlockReply(false); }
      BlockUser(me, user);
      r := BlockReply(true);
    }

    method CmdUnblock(me: User, username: Name) returns (r: Response)
      requires Shape() && Indexes() && Known(me)
      modifies me`blocked
      ensures Shape() && Indexes() && Id(me) < |old(State()).users|
      ensures (State(), r) == UnblockCommand(old(State()), Id(me), username)
    {
      hide Server.State, Server.Shape, FindUser, HasBlocked, SetBlocked, UnblockWalk;
      NumberedUser(me);
      var user := FindAccount(username);
      if user == null { return BlockReply(false); }
      IdInjective(user, me);
      if user == me { return BlockReply(false); }
      var muted := HasBlockedUser(me, user);
      if !muted { return BlockReply(false); }
      UnblockUser(me, user);
      r := BlockReply(true);
    }

    method RunMember(client: Client, me: User, request: Request, now: int) returns (r: Option<Response>)
      requires Shape() && Indexes() && InUse(client) && Known(me) && !request.Login?
      modifies db.first, clients, fileDb, fileDb.root, fileDb.root.Repr
      ensures Shape() && Indexes() && Id(me) < |old(State()).users|
      ensures fresh(fileDb.root.Repr - old(fileDb.root.Repr))
      ensures (State(), r) == MemberCommand(old(State()), client.slot, Id(me), request, now)
    {
      hide Server.State, Server.Shape, BroadcastMessage, DirectMessage, BlockCommand, UnblockCommand, WhoElseCommand,
        RegFileCommand, RegChunkCommand, SearchCommand, Sessions.Close, UserDb.Valid, FileDb.Valid;
      NumberedUser(me);
      match request
      case Broadcast(text) =>
        r := CmdBroadcast(me, text, now);
      case Direct(to, text) =>
        r := CmdMessage(me, to, text, now);
      case Block(username) =>
        var reply := CmdBlock(me, username);
        r := Some(reply);
      case Unblock(username) =>
        var reply := CmdUnblock(me, username);
        r := Some(reply);
      case WhoElse(pastSeconds, onlineOnly) =>
        var reply := CmdWhoElse(me, pastSeconds, onlineOnly, now);
        r := Some(reply);
      case Logout =>
        CloseSocket(client, now);
        r := None;
      case RegFile(filename, chunks) =>
        var reply := CmdRegFile(client, filename, chunks);
        r := Some(reply);
      case RegChunk(filename, indices) =>
        var reply := CmdRegChunk(client, filename, indices);
        r := Some(reply);
      case Search(filename, indices) =>
        var reply := CmdSearchFile(filename, indices, now);
        r := Some(reply);
    }

    method CmdWhoElse(me: User, pastSeconds: Option<nat>, onlineOnly: bool, now: int) returns (r: Response)
      requires Shape() && Known(me)
      ensures Id(me) < |State().users|
      ensures r == WhoElseCommand(State(), Id(me), pastSeconds, onlineOnly, now)
    {
      hide Server.State, Server.Shape, LoggedInAfter;
      NumberedUser(me);
      var threshold := if pastSeconds.Some? then now - pastSeconds.value else 0;
      var list := LoggedInUsersAfterTime(threshold, onlineOnly, me, now);
      r := OtherUsers(list);
    }

    method RunRequest(client: Client, request: Request, now: int) returns (r: Option<Response>)
      requires Shape() && Indexes() && InUse(client)
      modifies db.first, clients, fileDb, fileDb.root, fileDb.root.Repr
      ensures Shape() && Indexes()
      ensures fresh(fileDb.root.Repr - old(fileDb.root.Repr))
      ensures (State(), r) == Sessions.RunCommand(old(State()), client.slot, request, now)
    {
      hide Server.State, Server.Shape, MemberCommand, LoginOn;
      if request.Login? {
        var reply := CmdLogin(client, request.username, request.password, now);
        return Some(reply);
      }
      ConnOnlineAgrees(client, now);
      if client.user == null || !IsUserLoggedIn(client.user, now) {
        return Some(NotLoggedIn);
      }
      r := RunMember(client, client.user, request, now);
    }

    lemma ConnOnlineAgrees(client: Client, now: int)
      requires Shape() && InUse(client)
      ensures client.slot < |State().conns|
      ensures State().conns[client.slot].user == if client.user == null then None else Some(Id(client.user))
      ensures client.user != null ==> Known(client.user) && Id(client.user) < |State().users|
      ensures (client.user != null && IsUserLoggedIn(client.user, now)) <==> ConnOnline(State(), client.slot, now)
    {
    }

    method TouchUser(client: Client, now: int)
      requires Shape() && InUse(client)
      modifies db.first`lastActive
      ensures Shape() && State() == Touch(old(State()), client.slot, now)
    {
      ConnOnlineAgrees(client, now);
      if client.user != null && IsUserLoggedIn(client.user, now) {
        client.user.lastActive := now;
        UserChanged(client.user);
      }
    }

    // parse_command for one decoded request, and the reply that im_receive_command posts.
    method ParseCommand(client: Client, request: Request, now: int)
      requires Shape() && Indexes() && InUse(client)
      modifies db.first, clients, fileDb, fileDb.root, fileDb.root.Repr
      ensures Shape() && Indexes()
      ensures fresh(fileDb.root.Repr - old(fileDb.root.Repr))
      ensures State() == Sessions.DoCommand(old(State()), client.slot, request, now)
    {
      hide Server.State, Server.Shape, Sessions.RunCommand, Touch, Sessions.Post, UserDb.Valid, FileDb.Valid;
      var r := RunRequest(client, request, now);
      TouchUser(client, now);
      if r.Some? {
        Post(client, r.value);
      }
    }

    // --------------------------------------------------------------- sending

    // im_send_buffer on the connection's buffer.
    method SendOut(client: Client, taken: nat)
      requires Shape() && InUse(client)
      modifies client`out, client`sent
      ensures Shape() && State() == Sessions.SendOut(old(State()), client.slot, taken)
    {
      var k := Least(taken, |client.out|);
      client.sent := client.sent + client.out[..k];
      client.out := client.out[k..];
      ClientChanged(client);
    }

    // im_send_buffer on the user's own buffer.
    method SendOwn(client: Client, user: User, taken: nat)
      requires Shape() && InUse(client) && Known(user)
      modifies client`sent, user`buffer
      ensures Shape() && Id(user) < |old(State()).users|
      ensures State() == Sessions.SendOwn(old(State()), client.slot, Id(user), taken)
    {
      var k := Least(taken, |user.buffer|);
      client.sent := client.sent + user.buffer[..k];
      ClientChanged(client);
      label logged:
      user.buffer := user.buffer[k..];
      UserChanged@logged(user);
    }

    // The send branch of network_thread.
    method SendBuffers(client: Client, taken: nat, takenOwn: nat, now: int)
      requires Shape() && InUse(client)
      modifies clients`out, clients`sent, db.first`buffer
      ensures Shape() && State() == Sessions.SendBuffers(old(State()), client.slot, taken, takenOwn, now)
    {
      hide Server.State, Server.Shape, Sessions.SendOwn;
      ConnOnlineAgrees(client, now);
      SendOut(client, taken);
      if client.user != null {
        RecentAgrees(client.user, now);
        if client.user.lastActive + db.loginTimeout > now {
          SendOwn(client, client.user, takenOwn);
        }
      }
    }

    lemma RecentAgrees(u: User, now: int)
      requires Shape() && Known(u)
      ensures Id(u) < |State().users|
      ensures u.lastActive + db.loginTimeout > now <==> Recent(State(), Id(u), now)
    {
      NumberedUser(u);
    }

    // ------------------------------------------------------------- accepting

    // pick_client: the slot of the descriptor, or the slot a new one goes to, or -1.
    method PickClient(sockfd: int, createNew: bool) returns (j: int)
      requires Shape()
      ensures var k := SlotOf(State().conns, sockfd);
        j == if k < |clients| || createNew then k else -1
    {
      var i := 0;
      SlotFrom(sockfd, 0);
      while i < |clients|
        invariant 0 <= i <= |clients|
        invariant SlotOf(State().conns, sockfd) == i + SlotOf(State().conns[i..], sockfd)
      {
        SlotFrom(sockfd, i);
        if clients[i].fd == sockfd {
          return i;
        }
        i := i + 1;
      }
      j := if createNew then i else -1;
    }

    lemma SlotFrom(sockfd: int, i: nat)
      requires Shape() && i <= |clients|
      ensures i == 0 ==> State().conns[i..] == State().conns
      ensures i < |clients| ==> State().conns[i].fd == clients[i].fd
      ensures i < |clients| ==> State().conns[i..][1..] == State().conns[i + 1..]
    {
    }

    // The kernel hands out a descriptor that is not in use; the old occupant of its slot is freed.
    method AcceptClient(sockfd: int)
      requires Shape() && Indexes() && Safe(State(), Accept(sockfd))
      modifies this`clients
      ensures Shape() && Indexes() && State() == AcceptConn(old(State()), sockfd)
      ensures forall j :: 0 <= j < |clients| ==> clients[j] in old(clients) || fresh(clients[j])
    {
      hide Server.State, Server.Shape, Safe, SlotOf, UserDb.Valid, FileDb.Valid;
      NobodyAt(sockfd);
      var j := PickClient(sockfd, true);
      InstallClient(sockfd, j);
    }

    // clients[j] = im_connection_accept(...).
    method InstallClient(sockfd: int, j: nat)
      requires Shape() && Indexes() && j <= |clients|
      requires forall u <- db.first :: u.client != null ==> u.client.slot != j
      modifies this`clients
      ensures Shape() && Indexes()
      ensures forall j :: 0 <= j < |clients| ==> clients[j] in old(clients) || fresh(clients[j])
      ensures var s := old(State()); var blank := Conn(sockfd, true, None, [], [], []);
        State() == s.(conns := if j < |s.conns| then s.conns[j := blank] else s.conns + [blank])
    {
      hide Server.State, UserDb.Valid, FileDb.Valid;
      forall u | u in db.first && u.client != null
        ensures u.client.slot < |clients| && clients[u.client.slot] == u.client
      {
        NumberedClient(u.client);
      }
      var c := new Client(sockfd, j);
      clients := if j < |clients| then clients[j := c] else clients + [c];
      forall u | u in db.first && u.client != null ensures InUse(u.client) {
        assert clients[u.client.slot] == u.client;
      }
      SlotReplaced(c);
    }

    lemma NobodyAt(sockfd: int)
      requires Shape() && Safe(State(), Accept(sockfd))
      ensures forall u <- db.first :: u.client != null ==> u.client.slot != SlotOf(State().conns, sockfd)
    {
      forall u | u in db.first && u.client != null ensures u.client.slot != SlotOf(State().conns, sockfd) {
        NumberedUser(u);
      }
    }

    twostate lemma SlotReplaced(new c: Client)
      requires old(Shape()) && Shape() && unchanged(db, fileDb) && c.slot <= |old(clients)| && c.user == null
      requires c.open && c.out == [] && c.chunkIds == [] && c.sent == []
      requires clients == if c.slot < |old(clients)| then old(clients)[c.slot := c] else old(clients) + [c]
      requires forall u <- db.first :: unchanged(u)
      requires forall d <- old(clients) :: unchanged(d)
      ensures var s := old(State()); var blank := Conn(c.fd, true, None, [], [], []);
        State() == s.(conns := if c.slot < |s.conns| then s.conns[c.slot := blank] else s.conns + [blank])
    {
      forall i | 0 <= i < |db.first| ensures State().users[i] == old(State()).users[i] {
        var v := db.first[i];
        assert v in db.first && unchanged(v);
        assert AccountOf(v) == old(AccountOf(v));
      }
      forall j | 0 <= j < |old(clients)| && j != c.slot ensures State().conns[j] == old(State()).conns[j] {
        var d := old(clients)[j];
        assert d in old(clients) && unchanged(d);
        assert ConnOf(d) == old(ConnOf(d));
      }
      assert State().users == old(State()).users;
    }

    // ----------------------------------------------------------------- events

    // One event of the server's two threads is the state machine's step. Nothing is asked of
    // the sessions but that an accept frees no connection in use.
    method Handle(e: Event)
      requires Shape() && Indexes() && InTable(State(), e) && Safe(State(), e)
      modifies this`clients, db.first, clients, fileDb, fileDb.root, fileDb.root.Repr
      ensures Shape() && Indexes()
      ensures fresh(fileDb.root.Repr - old(fileDb.root.Repr))
      ensures forall j :: 0 <= j < |clients| ==> clients[j] in old(clients) || fresh(clients[j])
      ensures State() == Step(old(State()), e)
    {
      hide Server.State, Server.Shape, AcceptConn, Sessions.Close, Sessions.DoCommand, ExpireAt,
        Sessions.SendBuffers, Safe, UserDb.Valid, FileDb.Valid;
      match e
      case Accept(fd) =>
        AcceptClient(fd);
      case Disconnect(j, now) =>
        SlotAt(j);
        CloseSocket(clients[j], now);
      case Command(j, request, now) =>
        SlotAt(j);
        ParseCommand(clients[j], request, now);
      case Expire(j, now) =>
        SlotAt(j);
        ExpireClient(clients[j], now);
      case Writable(j, taken, takenOwn, now) =>
        SlotAt(j);
        SendBuffers(clients[j], taken, takenOwn, now);
    }

    // Any run of such events: what is proved of Run holds of the objects.
    method Serve(es: seq<Event>)
      requires Shape() && Indexes() && Servable(State(), es)
      modifies this, db.first, clients, fileDb, fileDb.root, fileDb.root.Repr
      ensures Shape() && Indexes()
      ensures State() == Run(old(State()), es)
    {
      hide Server.State, Server.Shape, Safe, Step, UserDb.Valid, FileDb.Valid;
      var i := 0;
      assert es[0..] == es;
      while i < |es|
        invariant 0 <= i <= |es|
        invariant Shape() && Indexes()
        invariant Servable(State(), es[i..]) && Run(State(), es[i..]) == Run(old(State()), es)
        invariant forall j :: 0 <= j < |clients| ==> clients[j] in old(clients) || fresh(clients[j])
        invariant fresh(fileDb.root.Repr - old(fileDb.root.Repr)) && unchanged(db)
      {
        assert es[i..][0] == es[i] && es[i..][1..] == es[i + 1..];
        Handle(es[i]);
        i := i + 1;
      }
    }
  }

  // main, up to the point where the two threads start.
  method StartServer(credentials: seq<(Name, Name)>, blockDuration: int, loginTimeout: int) returns (server: Server)
    ensures fresh(server) && server.Shape() && server.Indexes()
    ensures Initial(server.State()) && Inv(server.State())
    ensures server.State().blockDuration == blockDuration && server.State().loginTimeout == loginTimeout
    ensures var s := server.State(); var n := |credentials|;
      |s.users| == n && forall i :: 0 <= i < n ==> (s.users[i].name, s.users[i].password) == credentials[n - 1 - i]
  {
    var db := BuildUserDb(credentials, blockDuration, loginTimeout);
    server := new Server(db);
    InitialInv(server.State());
  }

  lemma StepOver<T>(r: seq<T>, i: nat)
    requires i < |r|
    ensures r[i..][1..] == r[i + 1..]
    ensures forall rest :: r[..i] + ([r[i]] + rest) == r[..i + 1] + rest
  {
  }

  lemma WantedNext(rec: FileRec, indices: seq<uint32>, k: nat)
    requires k < |indices|
    ensures Wanted(rec, indices[..k + 1])
      == Wanted(rec, indices[..k]) + if indices[k] < rec.chunks then {indices[k]} else {}
  {
    assert indices[..k + 1] == indices[..k] + [indices[k]];
    var before, after := Wanted(rec, indices[..k]), Wanted(rec, indices[..k + 1]);
    forall x: nat ensures x in after <==> x in before || (x == indices[k] && x < rec.chunks) {
      assert x in indices[..k + 1] <==> x in indices[..k] || x == indices[k];
    }
  }

  method NewMask(n: nat) returns (mask: array<bool>)
    ensures fresh(mask) && mask.Length == n && Marked(mask[..]) == {}
  {
    mask := new bool[n](_ => false);
  }

  // The loop over the requested chunk numbers.
  method MarkWanted(rec: FileRec, indices: seq<uint32>, wanted: array<bool>) returns (target: nat)
    requires wanted.Length == rec.chunks && Marked(wanted[..]) == {}
    modifies wanted
    ensures Marked(wanted[..]) == Wanted(rec, indices)
    ensures target == if indices == [] then 1 else 2
  {
    target := 1;
    var k := 0;
    while k < |indices|
      invariant 0 <= k <= |indices|
      invariant Marked(wanted[..]) == Wanted(rec, indices[..k])
      invariant target == if k == 0 then 1 else 2
    {
      target := 2;
      WantedNext(rec, indices, k);
      if indices[k] < rec.chunks {
        ghost var before := wanted[..];
        wanted[indices[k]] := true;
        MarkedSet(before, wanted[..], indices[k]);
      }
      k := k + 1;
    }
    assert indices[..k] == indices;
  }

  // The loop that counts the chunks found.
  method CountMarked(mask: array<bool>) returns (n: nat)
    ensures n == |Marked(mask[..])|
  {
    n := 0;
    var i := 0;
    while i < mask.Length
      invariant 0 <= i <= mask.Length
      invariant n == |Marked(mask[..i])|
    {
      assert mask[..i + 1] == mask[..i] + [mask[i]];
      if mask[i] {
        assert Marked(mask[..i + 1]) == Marked(mask[..i]) + {i};
        n := n + 1;
      } else {
        assert Marked(mask[..i + 1]) == Marked(mask[..i]);
      }
      i := i + 1;
    }
    assert mask[..i] == mask[..];
  }

  // Delivering mail does not change who refuses.
  lemma MailKeepsRefusal(s: State, from: nat, r: Response, now: int, k: nat)
    requires Scoped(s) && from < |s.users| && k < |s.users|
    ensures Refuses(FanOut(s, from, r, now, k), from, now, k) <==> Refuses(s, from, now, k)
  {
    FanOutMail(s, from, r, now, k);
  }
}
