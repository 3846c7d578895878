// The server as one state machine over values: accounts, connections and the file
// registry, with one step per event that the server's two threads carry out.
module Sessions {
  import opened Basics
  import opened FileTable

  const MAX_CLIENTS := 256

  // ------------------------------------------------------------------ state

  // Responses by what they say; message texts are not formatted here.
  datatype Response =
    | LoginNotice(who: nat)
    | LogoutNotice(who: nat)
    | Chat(from: nat, text: seq<byte>)
    | IdleExit
    | Welcome
    | NoSuchUser
    | WrongPassword
    | AccountLocked
    | SessionInPlace
    | NotLoggedIn
    | SomeUndelivered
    | RecipientBlockedYou
    | BlockReply(success: bool)
    | FileReply(success: bool)
    | ChunkReply(count: nat)
    | SearchReply(total: nat, available: nat, holders: seq<nat>)
    | OtherUsers(names: seq<nat>)

  // user_t. Users are named by their position in db->first, connections by their slot in clients[].
  datatype Account = Account(
    name: Name,
    password: Name,
    lastLoggedIn: int,
    lastActive: int,
    lastBlocked: int,
    attempts: int,
    client: Option<nat>,
    blocked: seq<nat>,
    buffer: seq<Response>
  )

  // im_client_t. `open` says whether the kernel still knows the descriptor; `sent` is what
  // the kernel has taken, from whichever buffer.
  datatype Conn = Conn(
    fd: int,
    open: bool,
    user: Option<nat>,
    out: seq<Response>,
    chunkIds: seq<uint32>,
    sent: seq<Response>
  )

  datatype State = State(
    users: seq<Account>,
    conns: seq<Conn>,
    files: Files,
    blockDuration: int,
    loginTimeout: int
  )

  datatype Request =
    | Login(username: Name, password: Name)
    | Broadcast(text: seq<byte>)
    | Direct(to: Name, text: seq<byte>)
    | Block(username: Name)
    | Unblock(username: Name)
    | WhoElse(pastSeconds: Option<nat>, onlineOnly: bool)
    | Logout
    | RegFile(filename: Name, chunks: uint32)
    | RegChunk(filename: Name, indices: seq<uint32>)
    | Search(filename: Name, indices: seq<uint32>)

  // Of a writable event, `taken` and `takenOwn` are how many whole responses the kernel takes
  // from the connection's buffer and from the user's own.
  datatype Event =
    | Accept(fd: int)
    | Disconnect(slot: nat, now: int)
    | Command(slot: nat, request: Request, now: int)
    | Expire(slot: nat, now: int)
    | Writable(slot: nat, taken: nat, takenOwn: nat, now: int)

  // Every reference names something that exists.
  predicate Scoped(s: State)
  {
    && (forall i :: 0 <= i < |s.users| ==> s.users[i].client.Some? ==> s.users[i].client.value < |s.conns|)
    && (forall j :: 0 <= j < |s.conns| ==> s.conns[j].user.Some? ==> s.conns[j].user.value < |s.users|)
  }

  predicate SameShape(s: State, t: State)
  {
    |t.users| == |s.users| && |t.conns| == |s.conns| && Scoped(t)
  }

  // ---------------------------------------------------------------- queries

  // findUser: the first match in db->first.
  function FindUser(users: seq<Account>, name: Name): (r: Option<nat>)
    ensures r.Some? ==> r.value < |users| && users[r.value].name == name
  {
    FindUserFrom(users, name, 0)
  }

  function FindUserFrom(users: seq<Account>, name: Name, k: nat): (r: Option<nat>)
    requires k <= |users|
    ensures r.Some? ==> k <= r.value < |users| && users[r.value].name == name
    decreases |users| - k
  {
    if k == |users| then None
    else if users[k].name == name then Some(k)
    else FindUserFrom(users, name, k + 1)
  }

  // isUserLoggedIn for a user that exists.
  predicate Online(s: State, i: nat, now: int)
    requires i < |s.users|
  {
    s.users[i].client.Some? && s.users[i].lastActive + s.loginTimeout > now
  }

  // isUserLoggedIn(client->user).
  predicate ConnOnline(s: State, j: nat, now: int)
    requires Scoped(s) && j < |s.conns|
  {
    s.conns[j].user.Some? && Online(s, s.conns[j].user.value, now)
  }

  predicate HasBlocked(s: State, owner: nat, who: nat)
    requires owner < |s.users|
  {
    who in s.users[owner].blocked
  }

  // --------------------------------------------------------------- delivery

  // send_response_to_client.
  function Post(s: State, j: nat, r: Response): (t: State)
    requires Scoped(s) && j < |s.conns|
    ensures SameShape(s, t)
  {
    s.(conns := s.conns[j := s.conns[j].(out := s.conns[j].out + [r])])
  }

  // send_response_to_user: the connection if the user is online, else the user's own buffer.
  function Deliver(s: State, i: nat, r: Response, now: int): (t: State)
    requires Scoped(s) && i < |s.users|
    ensures SameShape(s, t)
  {
    if Online(s, i, now) then Post(s, s.users[i].client.value, r)
    else s.(users := s.users[i := s.users[i].(buffer := s.users[i].buffer + [r])])
  }

  // Who is written to when `from` sends r to everyone. A chat message skips users who have
  // blocked the sender; login and logout notices skip users whom the subject has blocked.
  predicate Hears(s: State, from: nat, r: Response, v: nat, now: int)
    requires from < |s.users| && v < |s.users|
  {
    && v != from
    && Online(s, v, now)
    && (if r.Chat? then !HasBlocked(s, v, from) else !HasBlocked(s, from, v))
  }

  // The loop over the first k users of db->first.
  function FanOut(s: State, from: nat, r: Response, now: int, k: nat): (t: State)
    requires Scoped(s) && from < |s.users| && k <= |s.users|
    ensures SameShape(s, t)
  {
    if k == 0 then s
    else
      var t := FanOut(s, from, r, now, k - 1);
      if Hears(t, from, r, k - 1, now) then Deliver(t, k - 1, r, now) else t
  }

  // An online user other than the sender has blocked the sender.
  predicate Refuses(s: State, from: nat, now: int, v: nat)
    requires v < |s.users|
  {
    v != from && Online(s, v, now) && HasBlocked(s, v, from)
  }

  predicate Refused(s: State, from: nat, now: int, k: nat)
    requires k <= |s.users|
  {
    exists v :: 0 <= v < k && Refuses(s, from, now, v)
  }

  // --------------------------------------------------------------- sessions

  // The two pointer writes at the start of logoutUser.
  function Detach(s: State, u: nat): (t: State)
    requires Scoped(s) && u < |s.users| && s.users[u].client.Some?
    ensures SameShape(s, t)
  {
    var c := s.users[u].client.value;
    s.(conns := s.conns[c := s.conns[c].(user := None)],
       users := s.users[u := s.users[u].(client := None)])
  }

  function LogoutUser(s: State, user: Option<nat>, now: int): (t: State)
    requires Scoped(s) && (user.Some? ==> user.value < |s.users|)
    ensures SameShape(s, t)
  {
    if user.None? || s.users[user.value].client.None? then s
    else FanOut(Detach(s, user.value), user.value, LogoutNotice(user.value), now, |s.users|)
  }

  // close_socket.
  function Close(s: State, j: nat, now: int): (t: State)
    requires Scoped(s) && j < |s.conns|
    ensures SameShape(s, t)
  {
    var t := LogoutUser(s, s.conns[j].user, now);
    t.(conns := t.conns[j := t.conns[j].(open := false)])
  }

  // One round of time_thread's loop.
  function ExpireAt(s: State, j: nat, now: int): (t: State)
    requires Scoped(s) && j < |s.conns|
    ensures SameShape(s, t)
  {
    if s.conns[j].user.Some? && !Online(s, s.conns[j].user.value, now) then
      Post(LogoutUser(s, s.conns[j].user, now), j, IdleExit)
    else s
  }

  // The first k rounds of one pass, all at the same time.
  function Sweep(s: State, now: int, k: nat): (t: State)
    requires Scoped(s) && k <= |s.conns|
    ensures SameShape(s, t)
  {
    if k == 0 then s else ExpireAt(Sweep(s, now, k - 1), k - 1, now)
  }

  // pick_client with createNew, then im_connection_accept.
  function SlotOf(conns: seq<Conn>, fd: int): (j: nat)
    ensures j <= |conns|
    ensures j < |conns| ==> conns[j].fd == fd
    ensures forall i :: 0 <= i < j ==> conns[i].fd != fd
    decreases |conns|
  {
    if conns == [] then 0
    else if conns[0].fd == fd then 0
    else
      var j := SlotOf(conns[1..], fd);
      assert forall i :: 0 < i < j + 1 ==> conns[i] == conns[1..][i - 1];
      j + 1
  }

  function AcceptConn(s: State, fd: int): (t: State)
  {
    var blank := Conn(fd, true, None, [], [], []);
    var j := SlotOf(s.conns, fd);
    if j < |s.conns| then s.(conns := s.conns[j := blank])
    else s.(conns := s.conns + [blank])
  }

  // ------------------------------------------------------------------ login

  // The account fields that a login attempt reads and writes (lib/auth.c:105-116).
  datatype Verdict = Locked | Mismatch | InPlace | Granted

  function Authenticate(a: Account, password: Name, online: bool, blockDuration: int, now: int): (Account, Verdict)
  {
    if now < a.lastBlocked then (a, Locked)
    else if a.password != password then
      if a.attempts + 1 == 3 then (a.(lastBlocked := now + blockDuration, attempts := 0), Locked)
      else (a.(attempts := a.attempts + 1), Mismatch)
    else if online then (a, InPlace)
    else (a.(attempts := 0, lastActive := now, lastLoggedIn := now), Granted)
  }

  // The assignments of cmd_login_impl on success.
  function Attach(s: State, u: nat, j: nat): (t: State)
    requires Scoped(s) && u < |s.users| && j < |s.conns|
    ensures SameShape(s, t)
  {
    s.(conns := s.conns[j := s.conns[j].(user := Some(u))],
       users := s.users[u := s.users[u].(client := Some(j))])
  }

  // login() for a user that exists.
  function LoginCheck(s: State, u: nat, password: Name, now: int): (r: (State, Verdict))
    requires Scoped(s) && u < |s.users|
    ensures SameShape(s, r.0)
  {
    var (a, verdict) := Authenticate(s.users[u], password, Online(s, u, now), s.blockDuration, now);
    var t := s.(users := s.users[u := a]);
    (if verdict.Granted? then FanOut(t, u, LoginNotice(u), now, |t.users|) else t, verdict)
  }

  // cmd_login_impl.
  function LoginOn(s: State, j: nat, username: Name, password: Name, now: int): (r: (State, Response))
    requires Scoped(s) && j < |s.conns|
    ensures SameShape(s, r.0)
  {
    match FindUser(s.users, username)
    case None => (s, NoSuchUser)
    case Some(u) =>
      var (t, verdict) := LoginCheck(s, u, password, now);
      match verdict
      case Locked => (t, AccountLocked)
      case Mismatch => (t, WrongPassword)
      case InPlace => (t, SessionInPlace)
      case Granted => (Attach(t, u, j), Welcome)
  }

  // A login request that would succeed, and the user it is for.
  predicate LoginGranted(s: State, username: Name, password: Name, now: int)
  {
    match FindUser(s.users, username)
    case None => false
    case Some(u) => Authenticate(s.users[u], password, Online(s, u, now), s.blockDuration, now).1.Granted?
  }

  // ------------------------------------------------------------ block lists

  // blockUser prepends, and never the user itself or a user already listed.
  function BlockUser(me: nat, list: seq<nat>, u: nat): seq<nat>
  {
    if u == me || u in list then list else [u] + list
  }

  // unblockUser: after removing a node the walk also steps over the node that took its place.
  function UnblockWalk<T(==)>(list: seq<T>, u: T): seq<T>
  {
    if list == [] then []
    else if list[0] != u then [list[0]] + UnblockWalk(list[1..], u)
    else if |list| == 1 then []
    else [list[1]] + UnblockWalk(list[2..], u)
  }

  function SetBlocked(s: State, i: nat, blocked: seq<nat>): (t: State)
    requires Scoped(s) && i < |s.users|
    ensures SameShape(s, t)
  {
    s.(users := s.users[i := s.users[i].(blocked := blocked)])
  }

  // ------------------------------------------------------------------ files

  // The id of a chunk, in 32-bit arithmetic.
  function ChunkId(rec: FileRec, index: nat): uint32
  {
    (rec.sid + index) % TWO_32
  }

  // regAllFileChunk.
  function WithAllChunks(ids: seq<uint32>, rec: FileRec): seq<uint32>
  {
    ids + seq(rec.chunks, i requires 0 <= i => ChunkId(rec, i))
  }

  // regFileChunk: no index is compared with the file's chunk count.
  function WithChunks(ids: seq<uint32>, rec: FileRec, indices: seq<uint32>): seq<uint32>
  {
    ids + seq(|indices|, i requires 0 <= i < |indices| => ChunkId(rec, indices[i]))
  }

  function SetChunkIds(s: State, j: nat, ids: seq<uint32>): (t: State)
    requires Scoped(s) && j < |s.conns|
    ensures SameShape(s, t)
  {
    s.(conns := s.conns[j := s.conns[j].(chunkIds := ids)])
  }

  // The chunks of a file that a connection's flat id array stands for: the ids between
  // chunk_sid and the 32-bit sum of chunk_sid and chunks.
  function HeldChunks(ids: seq<uint32>, rec: FileRec): set<nat>
  {
    set id | id in ids && rec.sid <= id < (rec.sid + rec.chunks) % TWO_32 :: id - rec.sid
  }

  function Wanted(rec: FileRec, indices: seq<uint32>): set<nat>
  {
    set x | x in indices && x < rec.chunks :: x
  }

  // What clientHasFileChunks returns: 0 nothing, 1 something else, 2 something wanted.
  function LevelOf(held: set<nat>, wanted: set<nat>): nat
  {
    if held == {} then 0 else if held * wanted == {} then 1 else 2
  }

  function HoldingLevel(ids: seq<uint32>, rec: FileRec, wanted: set<nat>): nat
  {
    LevelOf(HeldChunks(ids, rec), wanted)
  }

  function IdsOf(s: State, i: nat): seq<uint32>
    requires Scoped(s) && i < |s.users| && s.users[i].client.Some?
  {
    s.conns[s.users[i].client.value].chunkIds
  }

  // The chunk mask after the first k users.
  function Available(s: State, rec: FileRec, now: int, k: nat): set<nat>
    requires Scoped(s) && k <= |s.users|
  {
    if k == 0 then {}
    else
      var rest := Available(s, rec, now, k - 1);
      if Online(s, k - 1, now) then rest + HeldChunks(IdsOf(s, k - 1), rec) else rest
  }

  // The users whose level is exactly the target, among the first k, in db order.
  function Holders(s: State, rec: FileRec, wanted: set<nat>, target: nat, now: int, k: nat): seq<nat>
    requires Scoped(s) && k <= |s.users|
  {
    if k == 0 then []
    else
      var rest := Holders(s, rec, wanted, target, now, k - 1);
      if Online(s, k - 1, now) && HoldingLevel(IdsOf(s, k - 1), rec, wanted) == target
      then rest + [k - 1] else rest
  }

  function SearchFile(s: State, rec: FileRec, indices: seq<uint32>, now: int): Response
    requires Scoped(s)
  {
    var target := if indices == [] then 1 else 2;
    SearchReply(rec.chunks, |Available(s, rec, now, |s.users|)|,
                Holders(s, rec, Wanted(rec, indices), target, now, |s.users|))
  }

  // loggedInUsersAfterTime over the first k users.
  function LoggedInAfter(s: State, threshold: int, onlineOnly: bool, exclude: nat, now: int, k: nat): seq<nat>
    requires k <= |s.users|
  {
    if k == 0 then []
    else
      var rest := LoggedInAfter(s, threshold, onlineOnly, exclude, now, k - 1);
      if k - 1 != exclude && s.users[k - 1].lastActive >= threshold && (onlineOnly ==> Online(s, k - 1, now))
      then rest + [k - 1] else rest
  }

  // --------------------------------------------------------------- commands

  function BroadcastMessage(s: State, me: nat, text: seq<byte>, now: int): (r: (State, Option<Response>))
    requires Scoped(s) && me < |s.users|
    ensures SameShape(s, r.0)
  {
    (FanOut(s, me, Chat(me, text), now, |s.users|),
     if Refused(s, me, now, |s.users|) then Some(SomeUndelivered) else None)
  }

  function DirectMessage(s: State, me: nat, to: Name, text: seq<byte>, now: int): (r: (State, Option<Response>))
    requires Scoped(s) && me < |s.users|
    ensures SameShape(s, r.0)
  {
    match FindUser(s.users, to)
    case None => (s, Some(NoSuchUser))
    case Some(u) =>
      if HasBlocked(s, u, me) then (s, Some(RecipientBlockedYou))
      else (Deliver(s, u, Chat(me, text), now), None)
  }

  function BlockCommand(s: State, me: nat, username: Name): (r: (State, Response))
    requires Scoped(s) && me < |s.users|
    ensures SameShape(s, r.0)
  {
    match FindUser(s.users, username)
    case None => (s, BlockReply(false))
    case Some(u) =>
      if u == me || HasBlocked(s, me, u) then (s, BlockReply(false))
      else (SetBlocked(s, me, BlockUser(me, s.users[me].blocked, u)), BlockReply(true))
  }

  function UnblockCommand(s: State, me: nat, username: Name): (r: (State, Response))
    requires Scoped(s) && me < |s.users|
    ensures SameShape(s, r.0)
  {
    match FindUser(s.users, username)
    case None => (s, BlockReply(false))
    case Some(u) =>
      if u == me || !HasBlocked(s, me, u) then (s, BlockReply(false))
      else (SetBlocked(s, me, UnblockWalk(s.users[me].blocked, u)), BlockReply(true))
  }

  function RegFileCommand(s: State, j: nat, filename: Name, chunks: uint32): (r: (State, Response))
    requires Scoped(s) && j < |s.conns|
    ensures SameShape(s, r.0)
  {
    var (files, added) := Add(s.files, filename, chunks);
    if added.None? then (s, FileReply(false))
    else (SetChunkIds(s.(files := files), j, WithAllChunks(s.conns[j].chunkIds, added.value)), FileReply(true))
  }

  function RegChunkCommand(s: State, j: nat, filename: Name, indices: seq<uint32>): (r: (State, Response))
    requires Scoped(s) && j < |s.conns|
    ensures SameShape(s, r.0)
  {
    match Find(s.files, filename)
    case None => (s, FileReply(false))
    case Some(rec) => (SetChunkIds(s, j, WithChunks(s.conns[j].chunkIds, rec, indices)), ChunkReply(|indices|))
  }

  function SearchCommand(s: State, filename: Name, indices: seq<uint32>, now: int): Response
    requires Scoped(s)
  {
    match Find(s.files, filename)
    case None => FileReply(false)
    case Some(rec) => SearchFile(s, rec, indices, now)
  }

  function WhoElseCommand(s: State, me: nat, pastSeconds: Option<nat>, onlineOnly: bool, now: int): Response
    requires me < |s.users|
  {
    var threshold := if pastSeconds.Some? then now - pastSeconds.value else 0;
    OtherUsers(LoggedInAfter(s, threshold, onlineOnly, me, now, |s.users|))
  }

  function Replying(r: (State, Response)): (State, Option<Response>)
  {
    (r.0, Some(r.1))
  }

  // The commands of a logged-in user `me` on connection j.
  function MemberCommand(s: State, j: nat, me: nat, request: Request, now: int): (r: (State, Option<Response>))
    requires Scoped(s) && j < |s.conns| && me < |s.users| && !request.Login?
    ensures SameShape(s, r.0)
  {
    match request
    case Broadcast(text) => BroadcastMessage(s, me, text, now)
    case Direct(to, text) => DirectMessage(s, me, to, text, now)
    case Block(username) => Replying(BlockCommand(s, me, username))
    case Unblock(username) => Replying(UnblockCommand(s, me, username))
    case WhoElse(pastSeconds, onlineOnly) => (s, Some(WhoElseCommand(s, me, pastSeconds, onlineOnly, now)))
    case Logout => (Close(s, j, now), None)
    case RegFile(filename, chunks) => Replying(RegFileCommand(s, j, filename, chunks))
    case RegChunk(filename, indices) => Replying(RegChunkCommand(s, j, filename, indices))
    case Search(filename, indices) => (s, Some(SearchCommand(s, filename, indices, now)))
  }

  function RunCommand(s: State, j: nat, request: Request, now: int): (r: (State, Option<Response>))
    requires Scoped(s) && j < |s.conns|
    ensures SameShape(s, r.0)
  {
    match request
    case Login(username, password) =>
      var (t, r) := LoginOn(s, j, username, password, now);
      (t, Some(r))
    case _ =>
      if !ConnOnline(s, j, now) then (s, Some(NotLoggedIn))
      else MemberCommand(s, j, s.conns[j].user.value, request, now)
  }

  // parse_command refreshes last_active of whoever is on the connection after the command.
  function Touch(s: State, j: nat, now: int): (t: State)
    requires Scoped(s) && j < |s.conns|
    ensures SameShape(s, t)
  {
    if ConnOnline(s, j, now) then
      var u := s.conns[j].user.value;
      s.(users := s.users[u := s.users[u].(lastActive := now)])
    else s
  }

  // One decoded request: run it, refresh, and post the reply on the same connection.
  function DoCommand(s: State, j: nat, request: Request, now: int): (t: State)
    requires Scoped(s) && j < |s.conns|
    ensures SameShape(s, t)
  {
    var (t, r) := RunCommand(s, j, request, now);
    var t' := Touch(t, j, now);
    if r.Some? then Post(t', j, r.value) else t'
  }

  // --------------------------------------------------------------- sending

  // What the send branch asks of a connection's user: it does not look at user->client.
  predicate Recent(s: State, u: nat, now: int)
    requires u < |s.users|
  {
    s.users[u].lastActive + s.loginTimeout > now
  }

  function SendOut(s: State, j: nat, taken: nat): (t: State)
    requires Scoped(s) && j < |s.conns|
    ensures SameShape(s, t)
  {
    var c := s.conns[j];
    var k := Least(taken, |c.out|);
    s.(conns := s.conns[j := c.(sent := c.sent + c.out[..k], out := c.out[k..])])
  }

  function SendOwn(s: State, j: nat, u: nat, taken: nat): (t: State)
    requires Scoped(s) && j < |s.conns| && u < |s.users|
    ensures SameShape(s, t)
  {
    var mail := s.users[u].buffer;
    var k := Least(taken, |mail|);
    s.(conns := s.conns[j := s.conns[j].(sent := s.conns[j].sent + mail[..k])],
       users := s.users[u := s.users[u].(buffer := mail[k..])])
  }

  // The send branch of network_thread.
  function SendBuffers(s: State, j: nat, taken: nat, takenOwn: nat, now: int): (t: State)
    requires Scoped(s) && j < |s.conns|
    ensures SameShape(s, t)
  {
    var t := SendOut(s, j, taken);
    if s.conns[j].user.Some? && Recent(s, s.conns[j].user.value, now)
    then SendOwn(t, j, s.conns[j].user.value, takenOwn)
    else t
  }

  // ------------------------------------------------------------------- runs

  predicate InTable(s: State, e: Event)
  {
    e.Accept? || e.slot < |s.conns|
  }

  function Step(s: State, e: Event): (t: State)
    requires Scoped(s) && InTable(s, e)
    ensures Scoped(t) && |t.users| == |s.users| && |s.conns| <= |t.conns|
  {
    match e
    case Accept(fd) => AcceptConn(s, fd)
    case Disconnect(j, now) => Close(s, j, now)
    case Command(j, request, now) => DoCommand(s, j, request, now)
    case Expire(j, now) => ExpireAt(s, j, now)
    case Writable(j, taken, takenOwn, now) => SendBuffers(s, j, taken, takenOwn, now)
  }

  // An accept neither frees a connection that a user points at nor runs past clients[].
  predicate Safe(s: State, e: Event)
  {
    e.Accept? ==>
      var j := SlotOf(s.conns, e.fd);
      && (forall i :: 0 <= i < |s.users| ==> s.users[i].client != Some(j))
      && (j < |s.conns| || j < MAX_CLIENTS)
  }

  ghost predicate Servable(s: State, es: seq<Event>)
    requires Scoped(s)
    ensures Servable(s, es) ==> Possible(s, es)
    decreases |es|
  {
    es == [] || (InTable(s, es[0]) && Safe(s, es[0]) && Servable(Step(s, es[0]), es[1..]))
  }

  // Every event concerns a connection that is in the table when its turn comes.
  predicate Possible(s: State, es: seq<Event>)
    requires Scoped(s)
    decreases |es|
  {
    es == [] || (InTable(s, es[0]) && Possible(Step(s, es[0]), es[1..]))
  }

  // Any run, whether or not it meets the guards that the session invariant needs.
  function Run(s: State, es: seq<Event>): (t: State)
    requires Scoped(s) && Possible(s, es)
    ensures Scoped(t) && |t.users| == |s.users| && |s.conns| <= |t.conns|
    decreases |es|
  {
    if es == [] then s else Run(Step(s, es[0]), es[1..])
  }

  lemma {:induction false} RunAppend(s: State, a: seq<Event>, b: seq<Event>)
    requires Scoped(s)
    ensures Possible(s, a + b) <==> Possible(s, a) && Possible(Run(s, a), b)
    ensures Possible(s, a + b) ==> Run(s, a + b) == Run(Run(s, a), b)
    decreases |a|
  {
    hide Step;
    if a == [] {
      assert a + b == b;
    } else {
      assert (a + b)[1..] == a[1..] + b;
      if InTable(s, a[0]) {
        RunAppend(Step(s, a[0]), a[1..], b);
      }
    }
  }
}
