// Messages to users who are not online wait in the user's own buffer and are sent when a
// connection that names the user becomes writable.
module Mailbox {
  import opened Basics
  import opened Sessions
  import opened SessionInvariant
  import opened Scenarios

  // What an event puts into the buffer of user u: a direct message to u from someone u has
  // not blocked, while u is not online.
  function Put(s: State, e: Event, u: nat): seq<Response>
    requires Scoped(s) && InTable(s, e) && u < |s.users|
  {
    match e
    case Command(j, Direct(to, text), now) =>
      if ConnOnline(s, j, now) && FindUser(s.users, to) == Some(u) && !Online(s, u, now)
        && !HasBlocked(s, u, s.conns[j].user.value)
      then [Chat(s.conns[j].user.value, text)] else []
    case _ => []
  }

  // What an event sends out of it.
  function Got(s: State, e: Event, u: nat): seq<Response>
    requires Scoped(s) && InTable(s, e) && u < |s.users|
  {
    match e
    case Writable(j, _, takenOwn, now) =>
      if s.conns[j].user == Some(u) && Recent(s, u, now)
      then s.users[u].buffer[..Least(takenOwn, |s.users[u].buffer|)] else []
    case _ => []
  }

  lemma RunCommandPuts(s: State, j: nat, request: Request, now: int, u: nat)
    requires Scoped(s) && j < |s.conns| && u < |s.users|
    ensures RunCommand(s, j, request, now).0.users[u].buffer
         == s.users[u].buffer + Put(s, Command(j, request, now), u)
  {
    assert s.users[u].buffer + [] == s.users[u].buffer;
    if request.Login? {
      LoginEffect(s, j, request.username, request.password, now);
    } else if ConnOnline(s, j, now) {
      var me := s.conns[j].user.value;
      match request
      case Broadcast(text) => FanOutMail(s, me, Chat(me, text), now, |s.users|);
      case Logout => LogoutEffect(s, s.conns[j].user, now);
      case _ =>
    }
  }

  lemma BufferStep(s: State, e: Event, u: nat)
    requires Scoped(s) && InTable(s, e) && u < |s.users|
    ensures s.users[u].buffer + Put(s, e, u) == Got(s, e, u) + Step(s, e).users[u].buffer
  {
    assert s.users[u].buffer + [] == s.users[u].buffer == [] + s.users[u].buffer;
    match e
    case Accept(_) =>
    case Disconnect(j, now) => LogoutEffect(s, s.conns[j].user, now);
    case Expire(j, now) => LogoutEffect(s, s.conns[j].user, now);
    case Writable(_, _, _, _) =>
    case Command(j, request, now) =>
      hide RunCommand, DoCommand;
      RunCommandPuts(s, j, request, now, u);
      CommandTail(s, j, request, now);
      var after := Step(s, e).users[u].buffer;
      assert [] + after == after;
  }

  function PutAll(s: State, es: seq<Event>, u: nat): seq<Response>
    requires Scoped(s) && Possible(s, es) && u < |s.users|
    decreases |es|
  {
    if es == [] then [] else Put(s, es[0], u) + PutAll(Step(s, es[0]), es[1..], u)
  }

  function GotAll(s: State, es: seq<Event>, u: nat): seq<Response>
    requires Scoped(s) && Possible(s, es) && u < |s.users|
    decreases |es|
  {
    if es == [] then [] else Got(s, es[0], u) + GotAll(Step(s, es[0]), es[1..], u)
  }

  // Over every run: what was waiting and what was put in is what was sent out and what still
  // waits, in the same order. So each waiting message is sent at most once, behind all that
  // waited before it, and none is lost.
  lemma {:induction false} MailConserved(s: State, es: seq<Event>, u: nat)
    requires Scoped(s) && Possible(s, es) && u < |s.users|
    ensures s.users[u].buffer + PutAll(s, es, u) == GotAll(s, es, u) + Run(s, es).users[u].buffer
    decreases |es|
  {
    hide Step, Put, Got;
    if es == [] {
      assert s.users[u].buffer + [] == [] + s.users[u].buffer;
    } else {
      var t := Step(s, es[0]);
      BufferStep(s, es[0], u);
      MailConserved(t, es[1..], u);
      Reassociate(s.users[u].buffer, Put(s, es[0], u), PutAll(t, es[1..], u));
      Reassociate(Got(s, es[0], u), t.users[u].buffer, PutAll(t, es[1..], u));
      Reassociate(Got(s, es[0], u), GotAll(t, es[1..], u), Run(t, es[1..]).users[u].buffer);
    }
  }

  // What leaves the buffer goes out on the connection that became writable, behind what that
  // connection's own buffer sends, and on no other.
  lemma SentOnThatConnection(s: State, j: nat, taken: nat, takenOwn: nat, now: int, u: nat)
    requires Scoped(s) && j < |s.conns| && s.conns[j].user == Some(u)
    ensures var e := Writable(j, taken, takenOwn, now);
      var t := Step(s, e);
      && t.conns[j].sent == s.conns[j].sent + s.conns[j].out[..Least(taken, |s.conns[j].out|)] + Got(s, e, u)
      && t.conns[j].out == s.conns[j].out[Least(taken, |s.conns[j].out|)..]
      && (forall c :: 0 <= c < |s.conns| && c != j ==> t.conns[c] == s.conns[c])
  {
    var c := s.conns[j];
    assert c.sent + c.out[..Least(taken, |c.out|)] + [] == c.sent + c.out[..Least(taken, |c.out|)];
  }

  // The send branch asks whether the connection's user was active lately, not whether the
  // user's session is on that connection. The mail goes out over the user's session if and
  // only if it is; a connection left over from an earlier session takes it otherwise.
  lemma MailReachesSessionIff(s: State, j: nat, taken: nat, takenOwn: nat, now: int, u: nat)
    requires Scoped(s) && j < |s.conns| && s.conns[j].user == Some(u)
    requires Got(s, Writable(j, taken, takenOwn, now), u) != []
    ensures var t := Step(s, Writable(j, taken, takenOwn, now));
      (exists c :: s.users[u].client == Some(c) && c < |s.conns| && t.conns[c].sent != s.conns[c].sent)
      <==> s.users[u].client == Some(j)
  {
    SentOnThatConnection(s, j, taken, takenOwn, now, u);
    hide Step;
    var t := Step(s, Writable(j, taken, takenOwn, now));
    if s.users[u].client == Some(j) {
      assert |t.conns[j].sent| > |s.conns[j].sent|;
    }
  }

  // ----------------------------------------------------- a connection's own queue

  // What an event sends out of the queue of connection c.
  function Taken(s: State, e: Event, c: nat): seq<Response>
    requires Scoped(s) && InTable(s, e) && c < |s.conns|
  {
    match e
    case Writable(j, taken, _, _) => if j == c then s.conns[c].out[..Least(taken, |s.conns[c].out|)] else []
    case _ => []
  }

  // The event gives slot c to a new connection.
  predicate Reuses(s: State, e: Event, c: nat)
  {
    e.Accept? && SlotOf(s.conns, e.fd) == c
  }

  lemma MemberQueues(s: State, j: nat, me: nat, request: Request, now: int, c: nat)
    requires Scoped(s) && j < |s.conns| && me < |s.users| && c < |s.conns| && !request.Login?
    ensures s.conns[c].out <= MemberCommand(s, j, me, request, now).0.conns[c].out
  {
    match request
    case Broadcast(text) => FanOutMail(s, me, Chat(me, text), now, |s.users|);
    case Logout => LogoutEffect(s, s.conns[j].user, now);
    case _ =>
  }

  lemma CommandQueues(s: State, j: nat, request: Request, now: int, c: nat)
    requires Scoped(s) && j < |s.conns| && c < |s.conns|
    ensures s.conns[c].out <= DoCommand(s, j, request, now).conns[c].out
  {
    CommandTail(s, j, request, now);
    if request.Login? {
      LoginEffect(s, j, request.username, request.password, now);
    } else if ConnOnline(s, j, now) {
      MemberQueues(s, j, s.conns[j].user.value, request, now, c);
    }
    hide DoCommand, MemberCommand, LoginOn, FindUser, Authenticate;
  }

  // What waits leaves from the front, and what is added goes to the end.
  lemma QueueStep(s: State, e: Event, c: nat)
    requires Scoped(s) && InTable(s, e) && c < |s.conns| && !Reuses(s, e, c)
    ensures s.conns[c].out <= Taken(s, e, c) + Step(s, e).conns[c].out
  {
    if e.Writable? {
    } else {
      QueueGrows(s, e, c);
      var out := Step(s, e).conns[c].out;
      assert [] + out == out;
    }
  }

  lemma QueueGrows(s: State, e: Event, c: nat)
    requires Scoped(s) && InTable(s, e) && c < |s.conns| && !Reuses(s, e, c) && !e.Writable?
    ensures s.conns[c].out <= Step(s, e).conns[c].out
  {
    hide LogoutUser, DoCommand, SendBuffers;
    match e
    case Accept(_) =>
    case Disconnect(j, now) => LogoutEffect(s, s.conns[j].user, now);
    case Expire(j, now) => LogoutEffect(s, s.conns[j].user, now);
    case Command(j, request, now) => CommandQueues(s, j, request, now, c);
  }

  ghost predicate NeverReuses(s: State, es: seq<Event>, c: nat)
    requires Scoped(s) && Possible(s, es)
    decreases |es|
  {
    es == [] || (!Reuses(s, es[0], c) && NeverReuses(Step(s, es[0]), es[1..], c))
  }

  function TakenAll(s: State, es: seq<Event>, c: nat): seq<Response>
    requires Scoped(s) && Possible(s, es) && c < |s.conns|
    decreases |es|
  {
    if es == [] then [] else Taken(s, es[0], c) + TakenAll(Step(s, es[0]), es[1..], c)
  }

  // From any moment of any run on, as long as the slot is not given away: what waits on a
  // connection is sent first and in order, and as much of it as is not sent still waits.
  lemma {:induction false} QueueConserved(s: State, es: seq<Event>, c: nat)
    requires Scoped(s) && Possible(s, es) && c < |s.conns| && NeverReuses(s, es, c)
    ensures s.conns[c].out <= TakenAll(s, es, c) + Run(s, es).conns[c].out
    decreases |es|
  {
    hide Step, Taken, Reuses;
    if es == [] {
      assert [] + s.conns[c].out == s.conns[c].out;
    } else {
      var t := Step(s, es[0]);
      QueueStep(s, es[0], c);
      QueueConserved(t, es[1..], c);
      Reassociate(Taken(s, es[0], c), TakenAll(t, es[1..], c), Run(t, es[1..]).conns[c].out);
    }
  }

  // ------------------------------------------------ mail on the old connection

  // The failing case is reachable: user 0 logs in and falls silent, is written to, logs in
  // again from a second connection before the timer comes round, and then the first one
  // becomes writable. The message goes there.
  lemma MailGoesToOldConnection() returns (s: State, es: seq<Event>)
    ensures Initial(s) && Guarded(s, es) && |Run(s, es).users| == 2 && |Run(s, es).conns| == 3
    ensures var t := Run(s, es);
      var after := Step(t, Writable(0, 0, 1, 18));
      && Online(t, 0, 18) && t.users[0].client == Some(2) && t.users[0].buffer != [] == after.users[0].buffer
      && after.conns[0].sent == t.conns[0].sent + t.users[0].buffer
      && after.conns[2] == t.conns[2]
  {
    s := START;
    Start();
    es := WrittenThenBack();
    var t := Run(s, es);
    hide Step, Run, Guarded;
    SentOnThatConnection(t, 0, 0, 1, 18, 0);
    BufferStep(t, Writable(0, 0, 1, 18), 0);
    var mail := t.users[0].buffer;
    assert mail[..1] == mail;
    assert t.conns[0].sent + t.conns[0].out[..0] == t.conns[0].sent;
  }
}
