// What keeps a session alive and what ends it, over whole runs, and who is shown as having
// been here.
module Activity {
  import opened Basics
  import opened Sessions
  import opened SessionInvariant
  import opened Sweeping

  // The fields that decide how long a session lasts.
  ghost predicate SameActivity(s: State, t: State)
  {
    && |t.users| == |s.users| && t.loginTimeout == s.loginTimeout
    && forall i :: 0 <= i < |s.users| ==>
         t.users[i].lastActive == s.users[i].lastActive && t.users[i].lastLoggedIn == s.users[i].lastLoggedIn
  }

  lemma MemberActivity(s: State, j: nat, me: nat, request: Request, now: int)
    requires Scoped(s) && j < |s.conns| && me < |s.users| && !request.Login?
    ensures SameActivity(s, MemberCommand(s, j, me, request, now).0)
  {
    match request
    case Broadcast(text) => FanOutMail(s, me, Chat(me, text), now, |s.users|);
    case Logout => LogoutEffect(s, s.conns[j].user, now);
    case _ =>
  }

  // Sessions survive every command but a logout.
  lemma MemberKeepsSessions(s: State, j: nat, me: nat, request: Request, now: int)
    requires Scoped(s) && j < |s.conns| && me < |s.users| && !request.Login? && !request.Logout?
    ensures var t := MemberCommand(s, j, me, request, now).0;
      && (forall i :: 0 <= i < |s.users| ==> t.users[i].client == s.users[i].client)
      && (forall c :: 0 <= c < |s.conns| ==> t.conns[c].user == s.conns[c].user)
  {
    match request
    case Broadcast(text) => FanOutMail(s, me, Chat(me, text), now, |s.users|);
    case _ =>
  }

  // A request other than a login refreshes exactly the user online on its connection, and a
  // logout refreshes nobody.
  lemma RequestRefreshes(s: State, j: nat, request: Request, now: int)
    requires Scoped(s) && j < |s.conns| && !request.Login?
    ensures var t := DoCommand(s, j, request, now);
      forall i :: 0 <= i < |s.users| ==>
        t.users[i].lastActive ==
          if ConnOnline(s, j, now) && s.conns[j].user == Some(i) && !request.Logout? then now else s.users[i].lastActive
  {
    if ConnOnline(s, j, now) {
      var me := s.conns[j].user.value;
      MemberActivity(s, j, me, request, now);
      if request.Logout? {
        LogoutEffect(s, s.conns[j].user, now);
      } else {
        MemberKeepsSessions(s, j, me, request, now);
      }
    }
  }

  // ------------------------------------------------------- what ends a session

  // The event ends user u's session on connection c, or moves it elsewhere.
  predicate Ends(s: State, e: Event, u: nat, c: nat)
    requires Scoped(s) && InTable(s, e) && u < |s.users|
  {
    match e
    case Disconnect(j, _) => s.conns[j].user == Some(u)
    case Expire(j, now) => s.conns[j].user == Some(u) && !Online(s, u, now)
    case Command(j, Logout, now) => s.conns[j].user == Some(u) && Online(s, u, now)
    case Command(j, Login(username, password), now) =>
      LoginGranted(s, username, password, now) && FindUser(s.users, username) == Some(u) && j != c
    case _ => false
  }

  lemma RunCommandEnds(s: State, j: nat, request: Request, now: int, u: nat, c: nat)
    requires Scoped(s) && j < |s.conns| && u < |s.users| && s.users[u].client == Some(c)
    ensures var t := RunCommand(s, j, request, now).0;
      && (t.users[u].client == Some(c) <==> !Ends(s, Command(j, request, now), u, c))
      && t.loginTimeout == s.loginTimeout
      && (t.users[u].lastActive == s.users[u].lastActive || t.users[u].lastActive == now)
  {
    if request.Login? {
      LoginEffect(s, j, request.username, request.password, now);
    } else if ConnOnline(s, j, now) {
      var me := s.conns[j].user.value;
      MemberActivity(s, j, me, request, now);
      if request.Logout? {
        LogoutEffect(s, s.conns[j].user, now);
      } else {
        MemberKeepsSessions(s, j, me, request, now);
      }
    }
  }

  // In any state, what ends a session is exactly that; and a user's activity only moves to
  // the time of the event.
  lemma SessionEndsIff(s: State, e: Event, u: nat, c: nat)
    requires Scoped(s) && InTable(s, e) && u < |s.users| && s.users[u].client == Some(c)
    ensures var t := Step(s, e);
      && (t.users[u].client == Some(c) <==> !Ends(s, e, u, c))
      && t.loginTimeout == s.loginTimeout
      && (t.users[u].lastActive == s.users[u].lastActive || (!e.Accept? && t.users[u].lastActive == e.now))
  {
    match e
    case Accept(_) =>
    case Disconnect(j, now) => LogoutEffect(s, s.conns[j].user, now);
    case Expire(j, now) => LogoutEffect(s, s.conns[j].user, now);
    case Writable(_, _, _, _) =>
    case Command(j, request, now) =>
      RunCommandEnds(s, j, request, now, u, c);
      CommandTail(s, j, request, now);
  }

  // Every event falls within the login timeout of u's latest activity, and none is a
  // disconnect or a logout on a connection that names u.
  ghost predicate Calm(s: State, es: seq<Event>, u: nat)
    requires Scoped(s) && u < |s.users|
    ensures Calm(s, es, u) ==> Possible(s, es)
    decreases |es|
  {
    es == [] ||
    (var e := es[0];
     && InTable(s, e)
     && (e.Accept? || s.users[u].lastActive <= e.now < s.users[u].lastActive + s.loginTimeout)
     && (Leaves(e) ==> s.conns[e.slot].user != Some(u))
     && Calm(Step(s, e), es[1..], u))
  }

  predicate Leaves(e: Event)
  {
    e.Disconnect? || (e.Command? && e.request.Logout?)
  }

  // Through every such run, on whatever connections other users log in and out, the session
  // stays where it is and its activity never goes back. No pass of the timer within the run
  // has ended it, and none will before the timeout has passed.
  lemma {:induction false} CalmRunKeepsSession(s: State, es: seq<Event>, u: nat, c: nat)
    requires Scoped(s) && u < |s.users| && s.users[u].client == Some(c) && Calm(s, es, u)
    ensures var t := Run(s, es);
      && t.users[u].client == Some(c) && t.users[u].lastActive >= s.users[u].lastActive
      && t.loginTimeout == s.loginTimeout
      && (forall later :: Online(t, u, later) <==> later < t.users[u].lastActive + s.loginTimeout)
    decreases |es|
  {
    hide Step;
    if es != [] {
      SessionEndsIff(s, es[0], u, c);
      CalmRunKeepsSession(Step(s, es[0]), es[1..], u, c);
    }
  }

  // A session that issues a request keeps its connection through every calm run from then on.
  lemma RequestKeepsAlive(s: State, j: nat, u: nat, request: Request, now: int, es: seq<Event>)
    requires Scoped(s) && j < |s.conns| && u < |s.users| && s.users[u].client == Some(j) && Online(s, u, now)
    requires s.conns[j].user == Some(u)
    requires !request.Login? && !request.Logout?
    ensures Calm(DoCommand(s, j, request, now), es, u) ==>
      var t := Run(DoCommand(s, j, request, now), es);
      && t.users[u].client == Some(j)
      && (forall later :: later < now + s.loginTimeout ==> Online(t, u, later))
  {
    hide DoCommand, Calm, Run, MemberCommand;
    RequestRefreshes(s, j, request, now);
    SessionEndsIff(s, Command(j, request, now), u, j);
    assert Step(s, Command(j, request, now)) == DoCommand(s, j, request, now);
    if Calm(DoCommand(s, j, request, now), es, u) {
      CalmRunKeepsSession(DoCommand(s, j, request, now), es, u, j);
    }
  }

  // ------------------------------------------- a pass among other events

  // Whoever is on connection c was active less than the timeout before `since`.
  predicate SweptSince(s: State, c: nat, since: int)
  {
    forall i :: 0 <= i < |s.users| && s.users[i].client == Some(c) ==> s.users[i].lastActive + s.loginTimeout > since
  }

  lemma CommandBrings(s: State, j: nat, request: Request, now: int, u: nat, c: nat)
    requires Scoped(s) && j < |s.conns| && u < |s.users|
    requires s.users[u].client != Some(c) && DoCommand(s, j, request, now).users[u].client == Some(c)
    ensures DoCommand(s, j, request, now).users[u].lastActive == now
  {
    CommandTail(s, j, request, now);
    if request.Login? {
      LoginEffect(s, j, request.username, request.password, now);
    } else if ConnOnline(s, j, now) {
      if request.Logout? {
        LogoutEffect(s, s.conns[j].user, now);
      } else {
        MemberKeepsSessions(s, j, s.conns[j].user.value, request, now);
      }
    }
    hide DoCommand, LogoutUser, LoginOn, Lengthened;
  }

  // A user who comes to connection c is active at that moment.
  lemma ComesActive(s: State, e: Event, u: nat, c: nat)
    requires Scoped(s) && InTable(s, e) && u < |s.users|
    requires s.users[u].client != Some(c) && Step(s, e).users[u].client == Some(c)
    ensures !e.Accept? && Step(s, e).users[u].lastActive == e.now
  {
    hide LogoutUser, DoCommand, Lengthened;
    match e
    case Accept(_) =>
    case Disconnect(j, now) => LogoutEffect(s, s.conns[j].user, now);
    case Expire(j, now) => LogoutEffect(s, s.conns[j].user, now);
    case Writable(_, _, _, _) =>
    case Command(j, request, now) => CommandBrings(s, j, request, now, u, c);
  }

  lemma RoundSweeps(s: State, c: nat, now: int)
    requires Inv(s) && c < |s.conns|
    ensures SweptSince(Step(s, Expire(c, now)), c, now)
  {
    LogoutEffect(s, s.conns[c].user, now);
  }

  lemma EventKeepsSwept(s: State, e: Event, c: nat, since: int)
    requires Scoped(s) && InTable(s, e) && SweptSince(s, c, since)
    requires s.loginTimeout > 0 && (e.Accept? || e.now >= since)
    ensures SweptSince(Step(s, e), c, since) && Step(s, e).loginTimeout == s.loginTimeout
  {
    hide Step;
    SameTimeout(s, e);
    var t := Step(s, e);
    forall i | 0 <= i < |t.users| && t.users[i].client == Some(c)
      ensures t.users[i].lastActive + t.loginTimeout > since
    {
      if s.users[i].client == Some(c) {
        SessionEndsIff(s, e, i, c);
      } else {
        ComesActive(s, e, i, c);
      }
    }
  }

  lemma SameTimeout(s: State, e: Event)
    requires Scoped(s) && InTable(s, e)
    ensures Step(s, e).loginTimeout == s.loginTimeout
  {
    match e
    case Accept(_) =>
    case Disconnect(j, now) => LogoutEffect(s, s.conns[j].user, now);
    case Expire(j, now) => LogoutEffect(s, s.conns[j].user, now);
    case Writable(_, _, _, _) =>
    case Command(j, request, now) =>
      CommandTail(s, j, request, now);
      if request.Login? {
        LoginEffect(s, j, request.username, request.password, now);
      } else if ConnOnline(s, j, now) {
        MemberActivity(s, j, s.conns[j].user.value, request, now);
      }
  }

  predicate NotBefore(es: seq<Event>, since: int)
  {
    forall e <- es :: e.Accept? || e.now >= since
  }

  // The run contains a round of the timer for connection c.
  predicate Visits(es: seq<Event>, c: nat)
  {
    exists k :: 0 <= k < |es| && es[k].Expire? && es[k].slot == c
  }

  lemma {:induction false} SlotSwept(s: State, es: seq<Event>, c: nat, since: int)
    requires Inv(s) && Guarded(s, es) && s.loginTimeout > 0 && NotBefore(es, since)
    requires SweptSince(s, c, since) || Visits(es, c)
    ensures SweptSince(Run(s, es), c, since) && Run(s, es).loginTimeout == s.loginTimeout
    decreases |es|
  {
    hide Linked, DistinctFds, AccountOk, Step, Guard;
    if es != [] {
      var e := es[0];
      StepInv(s, e);
      SameTimeout(s, e);
      assert e in es;
      if SweptSince(s, c, since) {
        EventKeepsSwept(s, e, c, since);
      } else if e.Expire? && e.slot == c {
        RoundSweeps(s, c, e.now);
        assert e.now >= since;
      } else {
      }
      SlotSwept(Step(s, e), es[1..], c, since);
    }
  }

  // A pass of the timer whose rounds are spread over a run, with requests, logins, accepts
  // and disconnects in between: when every connection that was there at the start has had its
  // round, everyone still attached was active less than the timeout before the pass began.
  // That the rounds end no live session is part of SessionEndsIff.
  lemma InterleavedPass(s: State, es: seq<Event>, since: int)
    requires Inv(s) && Guarded(s, es) && s.loginTimeout > 0 && NotBefore(es, since)
    requires forall c :: 0 <= c < |s.conns| ==> Visits(es, c)
    ensures var t := Run(s, es);
      forall i :: 0 <= i < |t.users| && t.users[i].client.Some? ==> t.users[i].lastActive + t.loginTimeout > since
  {
    hide Visits, Guarded, Run;
    var t := Run(s, es);
    forall i | 0 <= i < |t.users| && t.users[i].client.Some?
      ensures t.users[i].lastActive + t.loginTimeout > since
    {
      SlotSwept(s, es, t.users[i].client.value, since);
    }
  }

  // ------------------------------------------------------------ who else is here

  predicate Listed(s: State, threshold: int, onlineOnly: bool, exclude: nat, now: int, i: nat)
    requires i < |s.users|
  {
    i != exclude && s.users[i].lastActive >= threshold && (onlineOnly ==> Online(s, i, now))
  }

  lemma {:induction false} LoggedInElements(s: State, threshold: int, onlineOnly: bool, exclude: nat, now: int, k: nat)
    requires k <= |s.users|
    ensures var list := LoggedInAfter(s, threshold, onlineOnly, exclude, now, k);
      && Increasing(list)
      && (forall i :: i in list ==> i < k)
      && (forall i :: 0 <= i < k ==> (i in list <==> Listed(s, threshold, onlineOnly, exclude, now, i)))
  {
    hide Online;
    if k > 0 {
      LoggedInElements(s, threshold, onlineOnly, exclude, now, k - 1);
      var rest := LoggedInAfter(s, threshold, onlineOnly, exclude, now, k - 1);
      assert forall i :: 0 <= i < |rest| ==> rest[i] in rest;
    }
  }
}
