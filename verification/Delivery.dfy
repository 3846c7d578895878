// Who receives what: broadcast, login and logout notices, and direct messages.
module Delivery {
  import opened Basics
  import opened Sessions
  import opened SessionInvariant

  // The user on connection i is to hear a broadcast of `me`.
  predicate HearsOn(s: State, me: nat, now: int, i: nat)
    requires Scoped(s) && i < |s.conns|
  {
    s.conns[i].user.Some? &&
    var v := s.conns[i].user.value;
    v != me && Online(s, v, now) && s.users[v].client == Some(i) && me !in s.users[v].blocked
  }

  // Some online other user has blocked the sender.
  ghost predicate SomeoneRefuses(s: State, me: nat, now: int)
  {
    exists v :: 0 <= v < |s.users| && v != me && Online(s, v, now) && me in s.users[v].blocked
  }

  lemma RefusedMeans(s: State, me: nat, now: int)
    ensures Refused(s, me, now, |s.users|) <==> SomeoneRefuses(s, me, now)
  {
    if Refused(s, me, now, |s.users|) {
      var v :| 0 <= v < |s.users| && Refuses(s, me, now, v);
      assert me in s.users[v].blocked;
    }
    if v :| 0 <= v < |s.users| && v != me && Online(s, v, now) && me in s.users[v].blocked {
      assert Refuses(s, me, now, v);
    }
  }

  // A broadcast reaches each online user other than the sender who has not blocked the
  // sender, exactly once and on that user's own connection, and touches nothing else. The
  // sender is told of a failure exactly when some online other user has blocked the sender.
  lemma BroadcastExact(s: State, j: nat, me: nat, text: seq<byte>, now: int)
    requires Inv(s) && j < |s.conns| && me < |s.users|
    ensures var (t, reply) := MemberCommand(s, j, me, Broadcast(text), now);
      && t == s.(conns := t.conns) && |t.conns| == |s.conns|
      && (forall i :: 0 <= i < |s.conns| ==>
            t.conns[i] == Delivered(s.conns[i], Chat(me, text), HearsOn(s, me, now, i)))
      && reply == if SomeoneRefuses(s, me, now) then Some(SomeUndelivered) else None
    ensures forall v :: 0 <= v < |s.users| && v != me && Online(s, v, now) && me !in s.users[v].blocked ==>
      s.users[v].client.value < |s.conns| && HearsOn(s, me, now, s.users[v].client.value)
  {
    hide SomeoneRefuses, Refused;
    FanOutExact(s, me, Chat(me, text), now, |s.users|);
    RefusedMeans(s, me, now);
    forall i | 0 <= i < |s.conns|
      ensures Reached(s, me, Chat(me, text), now, |s.users|, i) <==> HearsOn(s, me, now, i)
    {
    }
  }

  // The user on connection i is to hear of u's coming or going: another online user, whose
  // session is there, and whom u has not blocked.
  predicate Told(s: State, u: nat, now: int, i: nat)
    requires Scoped(s) && u < |s.users| && i < |s.conns|
  {
    s.conns[i].user.Some? &&
    var v := s.conns[i].user.value;
    v != u && Online(s, v, now) && s.users[v].client == Some(i) && v !in s.users[u].blocked
  }

  // Telling everyone of u, after u's own account has changed.
  lemma NoticeExact(s: State, d: State, u: nat, r: Response, now: int)
    requires Inv(s) && u < |s.users| && !r.Chat?
    requires |d.users| == |s.users| && d == s.(users := s.users[u := d.users[u]])
    requires d.users[u].client == s.users[u].client && d.users[u].blocked == s.users[u].blocked
    ensures Scoped(d)
    ensures var t := FanOut(d, u, r, now, |d.users|);
      && t == d.(conns := t.conns) && |t.conns| == |s.conns|
      && forall i :: 0 <= i < |s.conns| ==> t.conns[i] == Delivered(s.conns[i], r, Told(s, u, now, i))
  {
    FanOutExact(d, u, r, now, |d.users|);
    forall i | 0 <= i < |s.conns|
      ensures Reached(d, u, r, now, |d.users|, i) <==> Told(s, u, now, i)
    {
    }
  }

  // A logout of u, whose session is on connection c: u and c are detached from each other,
  // and everyone who is to hear of it is told once.
  lemma LogoutExact(s: State, u: nat, c: nat, now: int)
    requires Inv(s) && u < |s.users| && s.users[u].client == Some(c)
    ensures var t := LogoutUser(s, Some(u), now);
      && t == s.(conns := t.conns, users := s.users[u := s.users[u].(client := None)])
      && |t.conns| == |s.conns|
      && (forall i :: 0 <= i < |s.conns| ==>
            t.conns[i] ==
              Delivered(if i == c then s.conns[i].(user := None) else s.conns[i], LogoutNotice(u), Told(s, u, now, i)))
  {
    var d := Detach(s, u);
    var r := LogoutNotice(u);
    DetachInv(s, u);
    FanOutExact(d, u, r, now, |d.users|);
    forall i | 0 <= i < |s.conns|
      ensures Reached(d, u, r, now, |d.users|, i) <==> Told(s, u, now, i)
    {
    }
  }
}
