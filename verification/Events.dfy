// What each event does, from its arrival to the last queue it touches. The statements use
// only the fields of the state before and after, and who is online.
module Events {
  import opened Basics
  import opened FileTable
  import opened Sessions
  import opened SessionInvariant
  import opened Delivery
  import opened Activity
  import opened ChunkSearch

  // Connection j names user me, who is online.
  predicate Serves(s: State, j: nat, me: nat, now: int)
  {
    Scoped(s) && j < |s.conns| && me < |s.users| && s.conns[j].user == Some(me) && Online(s, me, now)
  }

  function Refreshed(s: State, me: nat, now: int): State
    requires me < |s.users|
  {
    s.(users := s.users[me := s.users[me].(lastActive := now)])
  }

  function Replied(s: State, j: nat, r: Response): State
    requires j < |s.conns|
  {
    s.(conns := s.conns[j := s.conns[j].(out := s.conns[j].out + [r])])
  }

  // A request other than a login, on a connection that names nobody or somebody who is not
  // online, is refused and changes nothing else.
  lemma UnservedRequest(s: State, j: nat, request: Request, now: int)
    requires Scoped(s) && j < |s.conns| && !request.Login?
    requires s.conns[j].user.None? || !Online(s, s.conns[j].user.value, now)
    ensures Step(s, Command(j, request, now)) == Replied(s, j, NotLoggedIn)
  {
  }

  // The refresh and the reply, after a command that keeps its user online.
  lemma MemberStep(s: State, j: nat, me: nat, request: Request, now: int)
    requires Serves(s, j, me, now) && !request.Login? && !request.Logout?
    ensures var (t, r) := MemberCommand(s, j, me, request, now);
      var after := Refreshed(t, me, now);
      Step(s, Command(j, request, now)) == if r.Some? then Replied(after, j, r.value) else after
  {
    MemberKeepsSessions(s, j, me, request, now);
    MemberActivity(s, j, me, request, now);
    hide MemberCommand;
  }

  // Everyone who is to hear a broadcast has it once, and nobody else's queue has changed but
  // for the failure reply, which comes exactly when an online other user has blocked the sender.
  lemma BroadcastRequest(s: State, j: nat, me: nat, text: seq<byte>, now: int)
    requires Inv(s) && Serves(s, j, me, now)
    ensures var t := Step(s, Command(j, Broadcast(text), now));
      && t == s.(users := s.users[me := s.users[me].(lastActive := now)], conns := t.conns)
      && |t.conns| == |s.conns|
      && (forall i :: 0 <= i < |s.conns| && i != j ==>
            t.conns[i] == Delivered(s.conns[i], Chat(me, text), HearsOn(s, me, now, i)))
      && t.conns[j] == Delivered(s.conns[j], SomeUndelivered, SomeoneRefuses(s, me, now))
  {
    MemberStep(s, j, me, Broadcast(text), now);
    BroadcastExact(s, j, me, text, now);
    hide Step, MemberCommand, SomeoneRefuses;
  }

  // A direct message goes to the recipient's connection when online and waits in the
  // recipient's own buffer otherwise, unless the recipient has blocked the sender.
  lemma DirectRequest(s: State, j: nat, me: nat, to: Name, text: seq<byte>, now: int)
    requires Serves(s, j, me, now)
    ensures var t := Step(s, Command(j, Direct(to, text), now));
      match FindUser(s.users, to)
      case None => t == Replied(Refreshed(s, me, now), j, NoSuchUser)
      case Some(u) =>
        if me in s.users[u].blocked then t == Replied(Refreshed(s, me, now), j, RecipientBlockedYou)
        else if Online(s, u, now) then
          t == Replied(Refreshed(s, me, now), s.users[u].client.value, Chat(me, text))
        else
          var waiting := s.users[u].(buffer := s.users[u].buffer + [Chat(me, text)]);
          t == Refreshed(s.(users := s.users[u := waiting]), me, now)
  {
    MemberStep(s, j, me, Direct(to, text), now);
    hide Step, FindUser;
  }

  // Blocking puts exactly the named user in front of the list; it refuses a name that is
  // unknown, one's own, or already listed.
  lemma BlockRequest(s: State, j: nat, me: nat, username: Name, now: int)
    requires Serves(s, j, me, now)
    ensures var t := Step(s, Command(j, Request.Block(username), now));
      var found, list := FindUser(s.users, username), s.users[me].blocked;
      if found.Some? && found.value != me && found.value !in list then
        var after := s.(users := s.users[me := s.users[me].(blocked := [found.value] + list)]);
        t == Replied(Refreshed(after, me, now), j, BlockReply(true))
      else t == Replied(Refreshed(s, me, now), j, BlockReply(false))
  {
    MemberStep(s, j, me, Request.Block(username), now);
    hide Step, FindUser;
  }

  // Unblocking takes exactly the named user off the list and keeps the others in their order.
  lemma UnblockRequest(s: State, j: nat, me: nat, username: Name, now: int)
    requires Inv(s) && Serves(s, j, me, now)
    ensures var t := Step(s, Command(j, Unblock(username), now));
      var found, list := FindUser(s.users, username), s.users[me].blocked;
      if found.Some? && found.value in list then
        var after := s.(users := s.users[me := s.users[me].(blocked := Without(list, found.value))]);
        t == Replied(Refreshed(after, me, now), j, BlockReply(true))
      else t == Replied(Refreshed(s, me, now), j, BlockReply(false))
  {
    assert AccountOk(s, me);
    MemberStep(s, j, me, Unblock(username), now);
    var found := FindUser(s.users, username);
    if found.Some? {
      UnblockRemoves(s.users[me].blocked, found.value);
    }
    hide Step, FindUser, UnblockWalk, Without;
  }

  // whoelse is answered with every other user seen since the threshold, just those online if
  // so asked, once each in db order. Without a time limit the threshold is zero, which a
  // user who has never logged in does not reach.
  lemma WhoElseRequest(s: State, j: nat, me: nat, past: Option<nat>, onlineOnly: bool, now: int)
    returns (names: seq<nat>)
    requires Serves(s, j, me, now)
    ensures Step(s, Command(j, WhoElse(past, onlineOnly), now)) == Replied(Refreshed(s, me, now), j, OtherUsers(names))
    ensures var threshold := if past.Some? then now - past.value else 0;
      && Increasing(names)
      && (forall i :: i in names ==> i < |s.users|)
      && (forall i :: 0 <= i < |s.users| ==> (i in names <==> Listed(s, threshold, onlineOnly, me, now, i)))
  {
    MemberStep(s, j, me, WhoElse(past, onlineOnly), now);
    names := WhoElseCommand(s, me, past, onlineOnly, now).names;
    LoggedInElements(s, if past.Some? then now - past.value else 0, onlineOnly, me, now, |s.users|);
    hide Step, LoggedInAfter;
  }

  // Connection i after user u, whose session was on c, has left.
  function Left(s: State, u: nat, c: nat, now: int, i: nat): Conn
    requires Scoped(s) && u < |s.users| && i < |s.conns|
  {
    var here := if i == c then s.conns[i].(user := None) else s.conns[i];
    Delivered(here, LogoutNotice(u), Told(s, u, now, i))
  }

  // Connection j was closed and user u, whose session was on c, has left: u is detached, and
  // everyone who is to hear of it is told once.
  ghost predicate Closed(s: State, t: State, j: nat, u: nat, c: nat, now: int)
    requires Scoped(s) && u < |s.users|
  {
    && t == s.(users := s.users[u := s.users[u].(client := None)], conns := t.conns)
    && |t.conns| == |s.conns|
    && forall i :: 0 <= i < |s.conns| ==> t.conns[i] == Left(s, u, c, now, i).(open := s.conns[i].open && i != j)
  }

  // A logout closes the connection it arrives on and is not answered. Its user leaves,
  // wherever the session is.
  lemma LogoutRequest(s: State, j: nat, me: nat, c: nat, now: int)
    requires Inv(s) && Serves(s, j, me, now) && s.users[me].client == Some(c)
    ensures Closed(s, Step(s, Command(j, Logout, now)), j, me, c, now)
  {
    LogoutExact(s, me, c, now);
    hide LogoutUser;
  }

  // Registering a new name gives it the next interval and the connection all its ids; a
  // registered name is refused.
  lemma RegFileRequest(s: State, j: nat, me: nat, filename: Name, chunks: uint32, now: int)
    requires Serves(s, j, me, now)
    ensures var t := Step(s, Command(j, RegFile(filename, chunks), now));
      if filename in s.files.table then t == Replied(Refreshed(s, me, now), j, FileReply(false))
      else
        && t.files.next == (s.files.next + chunks) % 0x1_0000_0000
        && t.files.table ==
             (if chunks > 0 then s.files.table[filename := FileRec(s.files.next, chunks)] else s.files.table)
        && Gained(s.conns[j].chunkIds, t.conns[j].chunkIds, s.files.next, chunks)
        && t == Replied(Refreshed(WithIds(s.(files := t.files), j, t.conns[j].chunkIds), me, now), j, FileReply(true))
  {
    MemberStep(s, j, me, RegFile(filename, chunks), now);
    hide Step;
  }

  function WithIds(s: State, j: nat, ids: seq<uint32>): State
    requires j < |s.conns|
  {
    s.(conns := s.conns[j := s.conns[j].(chunkIds := ids)])
  }

  // after is before with the `chunks` ids from sid on, in 32-bit arithmetic, behind it.
  predicate Gained(before: seq<uint32>, after: seq<uint32>, sid: uint32, chunks: uint32)
  {
    && |after| == |before| + chunks && before <= after
    && forall k :: |before| <= k < |after| ==> after[k] == (sid + k - |before|) % 0x1_0000_0000
  }

  // regchunk gives the connection the id of every number sent, unchecked, and says how many.
  lemma RegChunkRequest(s: State, j: nat, me: nat, filename: Name, indices: seq<uint32>, now: int)
    requires Serves(s, j, me, now)
    ensures var t := Step(s, Command(j, RegChunk(filename, indices), now));
      if filename !in s.files.table then t == Replied(Refreshed(s, me, now), j, FileReply(false))
      else
        var before, after := s.conns[j].chunkIds, t.conns[j].chunkIds;
        && |after| == |before| + |indices| && before <= after
        && (forall k :: |before| <= k < |after| ==>
              after[k] == (s.files.table[filename].sid + indices[k - |before|]) % 0x1_0000_0000)
        && t == Replied(Refreshed(WithIds(s, j, after), me, now), j, ChunkReply(|indices|))
  {
    MemberStep(s, j, me, RegChunk(filename, indices), now);
    hide Step;
  }

  // A search is answered, against the ledger of who registered what, with the number of the
  // file's chunks, how many of them some online user holds, and which online users hold one
  // of exactly the chunks that were asked for, any chunk if none was, in db order.
  lemma SearchRequest(s: State, led: Ledger, j: nat, me: nat, file: Name, indices: seq<uint32>, now: int)
    requires Serves(s, j, me, now) && Indexed(s, led)
    ensures var t := Step(s, Command(j, Search(file, indices), now));
      if file !in s.files.table then t == Replied(Refreshed(s, me, now), j, FileReply(false))
      else exists holders ::
        && RightHolders(s, led, file, indices, now, holders)
        && var chunks := s.files.table[file].chunks;
        var available := |HeldOnline(s, led, file, chunks, now)|;
        t == Replied(Refreshed(s, me, now), j, SearchReply(chunks, available, holders))
  {
    MemberStep(s, j, me, Search(file, indices), now);
    hide Step, SearchFile, Indexed, Matches, HeldOnline;
    if file in s.files.table {
      SearchExact(s, led, file, indices, now);
      assert RightHolders(s, led, file, indices, now, SearchFile(s, s.files.table[file], indices, now).holders);
    }
  }

  ghost predicate RightHolders(s: State, led: Ledger, file: Name, indices: seq<uint32>, now: int, holders: seq<nat>)
    requires Scoped(s) && |led| == |s.conns|
  {
    && Increasing(holders)
    && (forall i :: i in holders ==> i < |s.users|)
    && (forall i :: 0 <= i < |s.users| ==> (i in holders <==> Matches(s, led, i, file, indices, now)))
  }

  // So it is after every run from a fresh server that meets the file guards.
  lemma SearchRequestAfterRun(s: State, es: seq<Event>, j: nat, me: nat, file: Name, indices: seq<uint32>, now: int)
    requires Initial(s) && FilesGuarded(s, es) && Serves(Run(s, es), j, me, now)
    ensures var before, led := Run(s, es), LedgerRun([], s, es);
      var t := Step(before, Command(j, Search(file, indices), now));
      if file !in before.files.table then t == Replied(Refreshed(before, me, now), j, FileReply(false))
      else exists holders ::
        && RightHolders(before, led, file, indices, now, holders)
        && var chunks := before.files.table[file].chunks;
        var available := |HeldOnline(before, led, file, chunks, now)|;
        t == Replied(Refreshed(before, me, now), j, SearchReply(chunks, available, holders))
  {
    hide Step, Run, LedgerRun, RightHolders, HeldOnline;
    RunIndexed(s, [], es);
    SearchRequest(Run(s, es), LedgerRun([], s, es), j, me, file, indices, now);
  }

  // ----------------------------------------------------------------- logging in

  // Whoever connection j names is refreshed, if online.
  function RefreshedOn(s: State, j: nat, now: int): State
    requires Scoped(s) && j < |s.conns|
  {
    var user := s.conns[j].user;
    if user.Some? && Online(s, user.value, now) then Refreshed(s, user.value, now) else s
  }

  // A login is refused for an unknown name, during a lock, for a wrong password, and for a
  // user who is online, in this order. It counts against the account in the third case only,
  // and the third time in a row locks it; nothing else comes of it.
  lemma RefusedLogin(s: State, j: nat, username: Name, password: Name, now: int)
    requires Scoped(s) && j < |s.conns|
    ensures var t := Step(s, Command(j, Login(username, password), now));
      match FindUser(s.users, username)
      case None => t == Replied(RefreshedOn(s, j, now), j, NoSuchUser)
      case Some(u) =>
        var a := s.users[u];
        var counted := s.(users := s.users[u := a.(attempts := a.attempts + 1)]);
        var locked := s.(users := s.users[u := a.(attempts := 0, lastBlocked := now + s.blockDuration)]);
        && (now < a.lastBlocked ==> t == Replied(RefreshedOn(s, j, now), j, AccountLocked))
        && (a.lastBlocked <= now && a.password != password ==>
              t == if a.attempts == 2 then Replied(RefreshedOn(locked, j, now), j, AccountLocked)
                   else Replied(RefreshedOn(counted, j, now), j, WrongPassword))
        && (a.lastBlocked <= now && a.password == password && Online(s, u, now) ==>
              t == Replied(RefreshedOn(s, j, now), j, SessionInPlace))
  {
    hide FindUser, FanOut;
    if FindUser(s.users, username).Some? {
      var u := FindUser(s.users, username).value;
      assert s.users[u := s.users[u]] == s.users;
    }
  }

  // Any other login is granted. User and connection point at each other, the attempts are
  // forgotten, everyone who is to hear of it is told once, and j is welcomed.
  lemma GrantedLogin(s: State, j: nat, u: nat, username: Name, password: Name, now: int)
    requires Inv(s) && j < |s.conns| && FindUser(s.users, username) == Some(u)
    requires s.users[u].lastBlocked <= now && s.users[u].password == password && !Online(s, u, now)
    ensures var t := Step(s, Command(j, Login(username, password), now));
      var a := s.users[u].(attempts := 0, lastActive := now, lastLoggedIn := now, client := Some(j));
      && t == s.(users := s.users[u := a], conns := t.conns) && |t.conns| == |s.conns|
      && forall i :: 0 <= i < |s.conns| ==>
           var c := Delivered(s.conns[i], LoginNotice(u), Told(s, u, now, i));
           t.conns[i] == if i == j then c.(user := Some(u), out := c.out + [Welcome]) else c
  {
    var d := s.(users := s.users[u := s.users[u].(attempts := 0, lastActive := now, lastLoggedIn := now)]);
    NoticeExact(s, d, u, LoginNotice(u), now);
    LoginStep(s, j, u, username, password, now);
    hide FindUser, FanOut, Told, Inv;
  }

  // FindUser gives the first account of that name, and none exactly when there is none.
  lemma {:induction false} FirstOfThatName(users: seq<Account>, name: Name, k: nat)
    requires k <= |users|
    ensures var found := FindUserFrom(users, name, k);
      && (found.None? <==> forall i :: k <= i < |users| ==> users[i].name != name)
      && (found.Some? ==> forall i :: k <= i < found.value ==> users[i].name != name)
    decreases |users| - k
  {
    if k < |users| {
      FirstOfThatName(users, name, k + 1);
    }
  }

  // -------------------------------------------------------- the other events

  // An accepted connection names nobody, and has no ids and nothing to send. It takes the
  // first slot with its descriptor, or a new one at the end if there is none.
  lemma AcceptEvent(s: State, fd: int) returns (j: nat)
    requires Scoped(s)
    ensures var blank := Conn(fd, true, None, [], [], []);
      && j <= |s.conns|
      && (forall i :: 0 <= i < j ==> s.conns[i].fd != fd)
      && (j < |s.conns| ==> s.conns[j].fd == fd)
      && Step(s, Accept(fd)) ==
           s.(conns := if j < |s.conns| then s.conns[j := blank] else s.conns + [blank])
  {
    j := SlotOf(s.conns, fd);
  }

  // A disconnect closes the connection. Whoever it names leaves if there is a session to
  // leave, live or not, on whatever connection.
  lemma DisconnectEvent(s: State, j: nat, now: int)
    requires Inv(s) && j < |s.conns|
    ensures var t, user := Step(s, Disconnect(j, now)), s.conns[j].user;
      if user.Some? && s.users[user.value].client.Some? then
        Closed(s, t, j, user.value, s.users[user.value].client.value, now)
      else t == s.(conns := s.conns[j := s.conns[j].(open := false)])
  {
    var user := s.conns[j].user;
    if user.Some? && s.users[user.value].client.Some? {
      LogoutExact(s, user.value, s.users[user.value].client.value, now);
      hide LogoutUser;
    }
  }

  // The timer sends the exit notice to a connection exactly when it names a user who is not
  // online, and that user leaves if there is an expired session to leave.
  lemma ExpireEvent(s: State, j: nat, now: int)
    requires Inv(s) && j < |s.conns|
    ensures var t, user := Step(s, Expire(j, now)), s.conns[j].user;
      if user.None? || Online(s, user.value, now) then t == s
      else if s.users[user.value].client.None? then t == Replied(s, j, IdleExit)
      else
        var u, c := user.value, s.users[user.value].client.value;
        && t == s.(users := s.users[u := s.users[u].(client := None)], conns := t.conns)
        && |t.conns| == |s.conns|
        && forall i :: 0 <= i < |s.conns| ==> t.conns[i] == Delivered(Left(s, u, c, now, i), IdleExit, i == j)
  {
    var user := s.conns[j].user;
    if user.Some? && s.users[user.value].client.Some? {
      LogoutExact(s, user.value, s.users[user.value].client.value, now);
      hide LogoutUser;
    }
  }

  // A writable connection sends from its own buffer and then, if it names a user who was
  // active within the timeout, from that user's; no other connection and no other account
  // changes. `first` and `second` count what the kernel takes of each.
  lemma WritableEvent(s: State, j: nat, taken: nat, takenOwn: nat, now: int)
    requires Scoped(s) && j < |s.conns|
    ensures var c, u := s.conns[j], s.conns[j].user;
      var first := if taken < |c.out| then taken else |c.out|;
      var mail := if u.Some? && s.users[u.value].lastActive + s.loginTimeout > now then s.users[u.value].buffer else [];
      var second := if takenOwn < |mail| then takenOwn else |mail|;
      var users :=
        if mail == [] then s.users else s.users[u.value := s.users[u.value].(buffer := mail[second..])];
      var conn := c.(out := c.out[first..], sent := c.sent + c.out[..first] + mail[..second]);
      Step(s, Writable(j, taken, takenOwn, now)) == s.(users := users, conns := s.conns[j := conn])
  {
    var c, u := s.conns[j], s.conns[j].user;
    var first := if taken < |c.out| then taken else |c.out|;
    assert c.sent + c.out[..first] + [] == c.sent + c.out[..first];
    if u.Some? && s.users[u.value].buffer == [] {
      assert s.users[u.value := s.users[u.value].(buffer := [])] == s.users;
    }
  }
}
