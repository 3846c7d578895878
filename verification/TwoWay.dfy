// The converse of the session link: when every connection that names a user is the
// connection of that user's session. The one event that breaks it is named here, and what
// goes wrong only where it is broken.
module TwoWay {
  import opened Basics
  import opened Sessions
  import opened SessionInvariant
  import opened Sweeping
  import opened Activity
  import opened Mailbox

  predicate BothWays(s: State)
    requires Scoped(s)
  {
    forall j :: 0 <= j < |s.conns| && s.conns[j].user.Some? ==> s.users[s.conns[j].user.value].client == Some(j)
  }

  // A login that is granted to a user who is attached to another connection, which it can be
  // only because the session there has expired and the timer has not come round yet.
  predicate Relogs(s: State, e: Event)
  {
    match e
    case Command(j, Login(username, password), now) =>
      && LoginGranted(s, username, password, now)
      && var client := s.users[FindUser(s.users, username).value].client;
      client.Some? && client != Some(j)
    case _ => false
  }

  // Everybody is where they were.
  ghost predicate SameLinks(s: State, t: State)
  {
    && |t.users| == |s.users| && |t.conns| == |s.conns|
    && (forall i :: 0 <= i < |s.users| ==> t.users[i].client == s.users[i].client)
    && (forall j :: 0 <= j < |s.conns| ==> t.conns[j].user == s.conns[j].user)
  }

  lemma LogoutLinks(s: State, user: Option<nat>, now: int)
    requires Scoped(s) && BothWays(s) && (user.Some? ==> user.value < |s.users|)
    ensures BothWays(LogoutUser(s, user, now))
  {
    LogoutEffect(s, user, now);
  }

  lemma GrantedLinks(s: State, j: nat, username: Name, password: Name, now: int)
    requires Inv(s) && BothWays(s) && j < |s.conns| && LoginGranted(s, username, password, now)
    requires LoginGuard(s, j, FindUser(s.users, username).value)
    ensures var e := Command(j, Login(username, password), now);
      BothWays(Step(s, e)) <==> !Relogs(s, e)
  {
    var e := Command(j, Login(username, password), now);
    var u := FindUser(s.users, username).value;
    LoginStep(s, j, u, username, password, now);
    hide Step, LoginGranted, FindUser, AccountOk, DistinctFds;
    if Relogs(s, e) {
      assert Step(s, e).conns[s.users[u].client.value].user == Some(u);
    }
  }

  lemma RefusedLinks(s: State, j: nat, username: Name, password: Name, now: int)
    requires Scoped(s) && j < |s.conns| && !LoginGranted(s, username, password, now)
    ensures SameLinks(s, Step(s, Command(j, Login(username, password), now)))
  {
    LoginEffect(s, j, username, password, now);
    CommandTail(s, j, Login(username, password), now);
    hide LoginOn, DoCommand, FindUser;
  }

  lemma RequestLinks(s: State, j: nat, request: Request, now: int)
    requires Scoped(s) && BothWays(s) && j < |s.conns| && !request.Login?
    ensures BothWays(DoCommand(s, j, request, now))
  {
    CommandTail(s, j, request, now);
    if ConnOnline(s, j, now) {
      if request.Logout? {
        LogoutLinks(s, s.conns[j].user, now);
      } else {
        MemberKeepsSessions(s, j, s.conns[j].user.value, request, now);
      }
    }
    hide DoCommand, MemberCommand;
  }

  lemma AcceptLinks(s: State, fd: int)
    requires Scoped(s) && BothWays(s)
    ensures BothWays(AcceptConn(s, fd))
  {
  }

  // A guarded event keeps the link both ways if and only if it is not such a login.
  lemma BothWaysStepIff(s: State, e: Event)
    requires Inv(s) && BothWays(s) && Guard(s, e) && InTable(s, e)
    ensures BothWays(Step(s, e)) <==> !Relogs(s, e)
  {
    hide AcceptConn, LogoutUser, DoCommand, LoginGranted, AccountOk, Linked, DistinctFds;
    match e
    case Accept(fd) => AcceptLinks(s, fd);
    case Disconnect(j, now) => LogoutLinks(s, s.conns[j].user, now);
    case Expire(j, now) => LogoutLinks(s, s.conns[j].user, now);
    case Writable(_, _, _, _) => assert SameLinks(s, Step(s, e));
    case Command(j, request, now) =>
      if request.Login? {
        if LoginGranted(s, request.username, request.password, now) {
          GrantedLinks(s, j, request.username, request.password, now);
        } else {
          RefusedLinks(s, j, request.username, request.password, now);
        }
      } else {
        RequestLinks(s, j, request, now);
      }
  }

  ghost predicate AlwaysBothWays(s: State, es: seq<Event>)
    requires Scoped(s) && Possible(s, es)
    decreases |es|
  {
    BothWays(s) && (es == [] || AlwaysBothWays(Step(s, es[0]), es[1..]))
  }

  ghost predicate NeverRelogs(s: State, es: seq<Event>)
    requires Scoped(s) && Possible(s, es)
    decreases |es|
  {
    es == [] || (!Relogs(s, es[0]) && NeverRelogs(Step(s, es[0]), es[1..]))
  }

  // Over a guarded run the link goes both ways at every moment if and only if no user logs
  // in elsewhere while still attached.
  lemma {:induction false} BothWaysIff(s: State, es: seq<Event>)
    requires Inv(s) && BothWays(s) && Guarded(s, es)
    ensures AlwaysBothWays(s, es) <==> NeverRelogs(s, es)
    ensures NeverRelogs(s, es) ==> BothWays(Run(s, es))
    decreases |es|
  {
    hide Step, Linked, DistinctFds, AccountOk, BothWays, Relogs;
    if es != [] {
      StepInv(s, es[0]);
      BothWaysStepIff(s, es[0]);
      if !Relogs(s, es[0]) {
        BothWaysIff(Step(s, es[0]), es[1..]);
      } else {
        assert !AlwaysBothWays(Step(s, es[0]), es[1..]);
      }
    }
  }

  // ------------------------------------------------------ what cannot go wrong

  // Closing a connection ends no session on another; an expired session is told of its end,
  // on its own connection and once; a second pass changes nothing; and waiting mail goes
  // out over its user's session.
  ghost predicate NothingStale(s: State, now: int)
    requires Scoped(s)
  {
    && (forall j, i :: 0 <= j < |s.conns| && 0 <= i < |s.users| && s.users[i].client != Some(j) ==>
          Close(s, j, now).users[i].client == s.users[i].client)
    && (forall i :: 0 <= i < |s.users| && s.users[i].client.Some? && !Online(s, i, now) ==>
          var c := s.users[i].client.value;
          Sweep(s, now, |s.conns|).conns[c].out == s.conns[c].out + [IdleExit])
    && (var t := Sweep(s, now, |s.conns|); Sweep(t, now, |t.conns|) == t)
    && (forall j, u, k, m :: 0 <= j < |s.conns| && 0 <= u < |s.users| && Got(s, Writable(j, k, m, now), u) != [] ==>
          s.users[u].client == Some(j))
  }

  lemma BothWaysSuffices(s: State, now: int)
    requires Inv(s) && BothWays(s)
    ensures NothingStale(s, now)
  {
    hide Close, Sweep, Linked, DistinctFds, AccountOk;
    forall j, i | 0 <= j < |s.conns| && 0 <= i < |s.users| && s.users[i].client != Some(j)
      ensures Close(s, j, now).users[i].client == s.users[i].client
    {
      CloseSparesOthersIff(s, j, now);
    }
    forall i | 0 <= i < |s.users| && s.users[i].client.Some? && !Online(s, i, now)
      ensures var c := s.users[i].client.value;
        Sweep(s, now, |s.conns|).conns[c].out == s.conns[c].out + [IdleExit]
    {
      ExitGoesToOwnSlotIff(s, now, i, s.users[i].client.value);
    }
    SecondPassIdleIff(s, now);
  }

  // In every guarded run from a fresh server in which nobody relogs, none of the failures
  // of a stale connection can happen at any moment.
  lemma NothingStaleWithoutRelogs(s: State, es: seq<Event>, now: int)
    requires Initial(s) && Guarded(s, es) && NeverRelogs(s, es)
    ensures NothingStale(Run(s, es), now)
  {
    hide Run, Guarded, NeverRelogs, NothingStale;
    InitialInv(s);
    RunInv(s, es);
    BothWaysIff(s, es);
    BothWaysSuffices(Run(s, es), now);
  }
}
