// time_thread's pass over the connections, and what a close does to other sessions.
module Sweeping {
  import opened Basics
  import opened Sessions
  import opened SessionInvariant
  import opened Scenarios

  // After k rounds: nobody with a live session was touched, every expired session in the
  // first k slots is gone.
  ghost predicate SweptTo(s: State, t: State, now: int, k: nat)
    requires Scoped(s) && Scoped(t) && SameShape(s, t) && k <= |s.conns|
  {
    && t.loginTimeout == s.loginTimeout
    && (forall i :: 0 <= i < |s.users| ==>
          && t.users[i].lastActive == s.users[i].lastActive
          && (t.users[i].client == s.users[i].client || (t.users[i].client.None? && !Online(s, i, now)))
          && (s.users[i].client.Some? && s.users[i].client.value < k && !Online(s, i, now) ==> t.users[i].client.None?))
  }

  lemma {:induction false} SweepRounds(s: State, now: int, k: nat)
    requires Inv(s) && k <= |s.conns|
    ensures Inv(Sweep(s, now, k)) && SweptTo(s, Sweep(s, now, k), now, k)
  {
    if k > 0 {
      hide SweptTo, ExpireAt, Linked, DistinctFds, AccountOk;
      SweepRounds(s, now, k - 1);
      SweepRound(s, Sweep(s, now, k - 1), now, k - 1);
    }
  }

  lemma SweepRound(s: State, t: State, now: int, k: nat)
    requires Scoped(s) && Inv(t) && SameShape(s, t) && k < |s.conns| && SweptTo(s, t, now, k)
    ensures Inv(ExpireAt(t, k, now)) && SweptTo(s, ExpireAt(t, k, now), now, k + 1)
  {
    ExpireInv(t, k, now);
    LogoutEffect(t, t.conns[k].user, now);
    var t' := ExpireAt(t, k, now);
    forall i | 0 <= i < |s.users| && s.users[i].client == Some(k) && !Online(s, i, now)
      ensures t'.users[i].client.None?
    {
      if t.users[i].client.Some? {
        assert t.conns[k].user == Some(i) && !Online(t, i, now);
      }
    }
  }

  // When a pass over all connections is done, exactly the sessions that had expired are
  // detached: none is left attached, and no live session was.
  lemma SweepExact(s: State, now: int)
    requires Inv(s)
    ensures var t := Sweep(s, now, |s.conns|);
      && Inv(t)
      && (forall i :: 0 <= i < |s.users| ==>
            t.users[i].client == if Online(s, i, now) then s.users[i].client else None)
      && (forall i :: 0 <= i < |s.users| && t.users[i].client.Some? ==> Online(t, i, now))
  {
    SweepRounds(s, now, |s.conns|);
  }

  // ----------------------------------------------- who gets the exit message

  // The pass visits slots in order and looks at client->user only. A slot whose user has
  // meanwhile logged in elsewhere still names that user, so when such a stale slot comes
  // first it is the one that is told, and the session's own connection is not.
  predicate StaleBefore(s: State, i: nat, c: nat)
    requires c <= |s.conns|
  {
    exists j :: 0 <= j < c && s.conns[j].user == Some(i)
  }

  // Over a whole pass, the connection of an expired session is sent the exit message, and
  // nothing else, exactly when no earlier slot still names the user.
  lemma ExitGoesToOwnSlotIff(s: State, now: int, i: nat, c: nat)
    requires Inv(s) && i < |s.users| && s.users[i].client == Some(c) && !Online(s, i, now)
    ensures c < |s.conns|
    ensures Sweep(s, now, |s.conns|).conns[c].out
         == if StaleBefore(s, i, c) then s.conns[c].out else s.conns[c].out + [IdleExit]
  {
    hide StaleBefore, Sweep;
    SilentBefore(s, now, c, c);
    OwnRound(s, now, i, c);
    SilentAfter(s, now, c, |s.conns|);
  }

  // The round that visits the connection.
  lemma OwnRound(s: State, now: int, i: nat, c: nat)
    requires Inv(s) && i < |s.users| && s.users[i].client == Some(c) && !Online(s, i, now)
    ensures c < |s.conns|
    ensures var before, after := Sweep(s, now, c).conns[c].out, Sweep(s, now, c + 1).conns[c].out;
      after == if StaleBefore(s, i, c) then before else before + [IdleExit]
  {
    hide StaleBefore;
    SlotsBefore(s, now, i, c, c);
    SweepRounds(s, now, c);
    var t := Sweep(s, now, c);
    if !StaleBefore(s, i, c) {
      DetachInv(t, i);
      FanOutExact(Detach(t, i), i, LogoutNotice(i), now, |t.users|);
      assert !Reached(Detach(t, i), i, LogoutNotice(i), now, |t.users|, c);
    }
  }

  // Nobody with a live session is on connection c.
  predicate Quiet(s: State, c: nat, now: int)
  {
    forall v :: 0 <= v < |s.users| && s.users[v].client == Some(c) ==> !Online(s, v, now)
  }

  lemma QuietRound(t: State, k: nat, c: nat, now: int)
    requires Inv(t) && k < |t.conns| && c < |t.conns| && k != c && Quiet(t, c, now)
    ensures ExpireAt(t, k, now).conns[c].out == t.conns[c].out
  {
    var user := t.conns[k].user;
    if user.Some? && t.users[user.value].client.Some? {
      var d := Detach(t, user.value);
      DetachInv(t, user.value);
      FanOutExact(d, user.value, LogoutNotice(user.value), now, |d.users|);
      assert !Reached(d, user.value, LogoutNotice(user.value), now, |d.users|, c);
    }
  }

  lemma {:induction false} SilentBefore(s: State, now: int, c: nat, k: nat)
    requires Inv(s) && c < |s.conns| && Quiet(s, c, now) && k <= c
    ensures Sweep(s, now, k).conns[c].out == s.conns[c].out
  {
    hide ExpireAt, Linked, DistinctFds, AccountOk;
    if k > 0 {
      SilentBefore(s, now, c, k - 1);
      SweepRounds(s, now, k - 1);
      QuietRound(Sweep(s, now, k - 1), k - 1, c, now);
    }
  }

  lemma {:induction false} SilentAfter(s: State, now: int, c: nat, k: nat)
    requires Inv(s) && Quiet(s, c, now) && c < k <= |s.conns|
    ensures Sweep(s, now, k).conns[c].out == Sweep(s, now, c + 1).conns[c].out
  {
    hide ExpireAt, Linked, DistinctFds, AccountOk;
    if k > c + 1 {
      SilentAfter(s, now, c, k - 1);
      SweepRounds(s, now, k - 1);
      QuietRound(Sweep(s, now, k - 1), k - 1, c, now);
    }
  }

  // Where user i stands before round k, when its expired session is on a later slot c.
  ghost predicate Standing(s: State, t: State, i: nat, c: nat, k: nat)
    requires i < |s.users| && k <= c < |s.conns| && |t.users| == |s.users| && |t.conns| == |s.conns|
  {
    && (t.users[i].client == Some(c) <==> !StaleBefore(s, i, k))
    && t.conns[c].user == (if StaleBefore(s, i, k) then None else Some(i))
    && (forall j :: k <= j < |s.conns| && j != c ==> (t.conns[j].user == Some(i) <==> s.conns[j].user == Some(i)))
  }

  // What round k leaves of user i, whose session is on another slot c.
  lemma ExpireOther(t: State, now: int, i: nat, c: nat, k: nat)
    requires Inv(t) && i < |t.users| && k < c < |t.conns| && !Online(t, i, now)
    requires t.users[i].client == Some(c) || t.users[i].client == None
    requires t.conns[c].user == Some(i) || t.conns[c].user == None
    ensures var t' := ExpireAt(t, k, now);
      && t'.users[i].client == (if t.conns[k].user == Some(i) then None else t.users[i].client)
      && t'.conns[c].user
         == (if t.conns[k].user == Some(i) && t.users[i].client == Some(c) then None else t.conns[c].user)
      && (forall j :: k < j < |t.conns| && j != c ==> (t'.conns[j].user == Some(i) <==> t.conns[j].user == Some(i)))
  {
    LogoutEffect(t, t.conns[k].user, now);
    if t.conns[k].user.Some? && t.conns[k].user != Some(i) {
      var w := t.conns[k].user.value;
      assert t.users[w].client.Some? ==> t.conns[t.users[w].client.value].user == Some(w);
    }
  }

  lemma StandingNext(s: State, t: State, now: int, i: nat, c: nat, k: nat)
    requires Scoped(s) && Inv(t) && SameShape(s, t) && i < |s.users| && k < c < |s.conns|
    requires t.users[i].client == Some(c) || t.users[i].client == None
    requires Standing(s, t, i, c, k) && !Online(t, i, now)
    ensures Standing(s, ExpireAt(t, k, now), i, c, k + 1)
  {
    hide ExpireAt, Inv;
    ExpireOther(t, now, i, c, k);
    assert StaleBefore(s, i, k + 1) <==> StaleBefore(s, i, k) || s.conns[k].user == Some(i);
  }

  lemma {:induction false} SlotsBefore(s: State, now: int, i: nat, c: nat, k: nat)
    requires Inv(s) && i < |s.users| && s.users[i].client == Some(c) && !Online(s, i, now) && k <= c < |s.conns|
    ensures Standing(s, Sweep(s, now, k), i, c, k)
  {
    if k > 0 {
      hide ExpireAt, Standing, DistinctFds, AccountOk;
      SlotsBefore(s, now, i, c, k - 1);
      SweepRounds(s, now, k - 1);
      StandingNext(s, Sweep(s, now, k - 1), now, i, c, k - 1);
    }
  }

  // --------------------------------------------- the notice that is repeated

  // A connection that names a user without a live session.
  predicate NamesNobody(s: State, j: nat, now: int)
    requires Scoped(s) && j < |s.conns|
  {
    s.conns[j].user.Some? && !Online(s, s.conns[j].user.value, now)
  }

  lemma RoundGrows(s: State, k: nat, now: int, j: nat)
    requires Scoped(s) && k < |s.conns| && j < |s.conns|
    ensures |s.conns[j].out| <= |ExpireAt(s, k, now).conns[j].out|
    ensures k == j && NamesNobody(s, j, now) ==> |s.conns[j].out| < |ExpireAt(s, k, now).conns[j].out|
    ensures !NamesNobody(s, k, now) ==> ExpireAt(s, k, now) == s
  {
    var user := s.conns[k].user;
    if user.Some? && s.users[user.value].client.Some? {
      var d := Detach(s, user.value);
      FanOutMail(d, user.value, LogoutNotice(user.value), now, |d.users|);
    }
  }

  lemma {:induction false} PassGrows(s: State, now: int, m: nat, k: nat, j: nat)
    requires Scoped(s) && m <= k <= |s.conns| && j < |s.conns|
    ensures |Sweep(s, now, m).conns[j].out| <= |Sweep(s, now, k).conns[j].out|
    decreases k
  {
    hide ExpireAt;
    if m < k {
      PassGrows(s, now, m, k - 1, j);
      RoundGrows(Sweep(s, now, k - 1), k - 1, now, j);
    }
  }

  lemma {:induction false} IdleRounds(s: State, now: int, k: nat)
    requires Scoped(s) && k <= |s.conns| && forall j :: 0 <= j < k ==> !NamesNobody(s, j, now)
    ensures Sweep(s, now, k) == s
  {
    hide NamesNobody, ExpireAt;
    if k > 0 {
      IdleRounds(s, now, k - 1);
      RoundGrows(s, k - 1, now, k - 1);
    }
  }

  // In any state a pass changes nothing if and only if no connection names a user without a
  // live session.
  lemma PassIdleIff(s: State, now: int)
    requires Scoped(s)
    ensures Sweep(s, now, |s.conns|) == s <==> forall j :: 0 <= j < |s.conns| ==> !NamesNobody(s, j, now)
  {
    hide NamesNobody, ExpireAt;
    if j :| 0 <= j < |s.conns| && NamesNobody(s, j, now) {
      var first := FirstNaming(s, now, j);
      IdleRounds(s, now, first);
      RoundGrows(s, first, now, first);
      PassGrows(s, now, first + 1, |s.conns|, first);
    } else {
      IdleRounds(s, now, |s.conns|);
    }
  }

  lemma {:induction false} FirstNaming(s: State, now: int, j: nat) returns (first: nat)
    requires Scoped(s) && j < |s.conns| && NamesNobody(s, j, now)
    ensures first <= j && NamesNobody(s, first, now)
    ensures forall i :: 0 <= i < first ==> !NamesNobody(s, i, now)
  {
    if i :| 0 <= i < j && NamesNobody(s, i, now) {
      first := FirstNaming(s, now, i);
    } else {
      first := j;
    }
  }

  // Connection j loses its user in a pass when that user's session was on j and is detached,
  // and not otherwise.
  ghost predicate Unnamed(s: State, t: State)
    requires Scoped(s) && Scoped(t) && SameShape(s, t)
  {
    forall j :: 0 <= j < |s.conns| ==>
      t.conns[j].user ==
        if s.conns[j].user.Some? && s.users[s.conns[j].user.value].client == Some(j)
          && t.users[s.conns[j].user.value].client.None?
        then None else s.conns[j].user
  }

  lemma UnnamedRound(s: State, t: State, now: int, k: nat)
    requires Inv(s) && Inv(t) && SameShape(s, t) && k < |s.conns| && SweptTo(s, t, now, k) && Unnamed(s, t)
    ensures Unnamed(s, ExpireAt(t, k, now))
  {
    hide DistinctFds, AccountOk, Online;
    LogoutEffect(t, t.conns[k].user, now);
    hide LogoutUser;
  }

  lemma {:induction false} UnnamedRounds(s: State, now: int, k: nat)
    requires Inv(s) && k <= |s.conns|
    ensures Unnamed(s, Sweep(s, now, k))
  {
    if k > 0 {
      hide Unnamed, SweptTo, ExpireAt, Linked, DistinctFds, AccountOk;
      UnnamedRounds(s, now, k - 1);
      SweepRounds(s, now, k - 1);
      UnnamedRound(s, Sweep(s, now, k - 1), now, k - 1);
    }
  }

  // A second pass at the same time repeats no notice if and only if every expired user named
  // by a connection had its session on that connection. A connection that does not is sent
  // the notice again by every pass.
  lemma SecondPassIdleIff(s: State, now: int)
    requires Inv(s)
    ensures var t := Sweep(s, now, |s.conns|);
      Sweep(t, now, |t.conns|) == t
      <==>
      forall j :: 0 <= j < |s.conns| && NamesNobody(s, j, now) ==> s.users[s.conns[j].user.value].client == Some(j)
  {
    var n := |s.conns|;
    var t := Sweep(s, now, n);
    PassIdleIff(t, now);
    UnnamedRounds(s, now, n);
    SweepRounds(s, now, n);
    SweepExact(s, now);
    hide Sweep;
    forall j | 0 <= j < n
      ensures NamesNobody(t, j, now) <==> NamesNobody(s, j, now) && s.users[s.conns[j].user.value].client != Some(j)
    {
    }
  }

  // ------------------------------------------- what a close does to others

  // Closing connection j logs out whoever client->user names, wherever that user's session
  // is. The sessions on all other connections survive exactly when the named user, if any,
  // has no session on another connection.
  lemma CloseSparesOthersIff(s: State, j: nat, now: int)
    requires Inv(s) && j < |s.conns|
    ensures var t := Close(s, j, now);
      (forall i :: 0 <= i < |s.users| && s.users[i].client != Some(j) ==> t.users[i].client == s.users[i].client)
      <==>
      (s.conns[j].user.Some? ==>
         var client := s.users[s.conns[j].user.value].client;
         client.None? || client == Some(j))
  {
    LogoutEffect(s, s.conns[j].user, now);
    var t := Close(s, j, now);
    if s.conns[j].user.Some? {
      var u := s.conns[j].user.value;
      assert t.users[u].client == None;
    }
  }

  // The failing case is reachable: a user logs in, falls silent past the timeout, logs in
  // again from a second connection before the sweep, and then drops the first connection.
  lemma StaleCloseEndsLiveSession() returns (s: State, es: seq<Event>)
    ensures Initial(s) && Inv(s) && Guarded(s, es)
    ensures var t := Run(s, es);
      && |t.users| == 2 && |t.conns| == 2
      && t.users[0].client == Some(1) && t.users[0].lastActive == 20 && t.loginTimeout == 10
      && t.conns[0].user == Some(0) && Online(t, 0, 20)
      && !Online(Close(t, 0, 20), 0, 20)
  {
    s := START;
    Start();
    es := SecondIn(0, 20);
    LogoutEffect(Run(s, es), Some(0), 20);
  }

  // So are the missed notice and the repeated one: after that run user 0's session on
  // connection 1 expires, a pass tells connection 0 instead, and the next pass tells it again.
  lemma StaleSlotTakesNotice() returns (s: State, es: seq<Event>)
    ensures Initial(s) && Guarded(s, es)
    ensures var t := Run(s, es);
      && |t.users| == 2 && |t.conns| == 2 && t.users[0].client == Some(1) && !Online(t, 0, 30)
      && var swept := Sweep(t, 30, 2);
      && swept.conns[1].out == t.conns[1].out
      && Sweep(swept, 30, 2) != swept
  {
    s, es := StaleCloseEndsLiveSession();
    RunInv(s, es);
    var t := Run(s, es);
    assert StaleBefore(t, 0, 1);
    ExitGoesToOwnSlotIff(t, 30, 0, 1);
    assert NamesNobody(t, 0, 30);
    SecondPassIdleIff(t, 30);
  }
}
