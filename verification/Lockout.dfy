// Three strikes and a timed lock, over whole runs of the server. Nothing here needs the
// session invariant, so every run counts, whatever connections its logins arrive on.
module Lockout {
  import opened Basics
  import opened Sessions
  import opened SessionInvariant

  // The part of an account that decides on passwords.
  predicate SameGate(a: Account, b: Account)
  {
    a.name == b.name && a.password == b.password && a.attempts == b.attempts && a.lastBlocked == b.lastBlocked
  }

  ghost predicate SameGates(s: State, t: State)
  {
    && |t.users| == |s.users| && t.blockDuration == s.blockDuration
    && forall i :: 0 <= i < |s.users| ==> SameGate(s.users[i], t.users[i])
  }

  lemma MemberGates(s: State, j: nat, me: nat, request: Request, now: int)
    requires Scoped(s) && j < |s.conns| && me < |s.users| && !request.Login?
    ensures SameGates(s, MemberCommand(s, j, me, request, now).0)
  {
    match request
    case Broadcast(text) => FanOutMail(s, me, Chat(me, text), now, |s.users|);
    case Direct(_, _) =>
    case Block(_) =>
    case Unblock(_) =>
    case WhoElse(_, _) =>
    case Logout => LogoutEffect(s, s.conns[j].user, now);
    case RegFile(_, _) =>
    case RegChunk(_, _) =>
    case Search(_, _) =>
  }

  // ------------------------------------------------- what an attempt counts as

  // The event is a login attempt on u's account that reaches the password comparison.
  predicate Attempts(s: State, e: Event, u: nat)
    requires u < |s.users|
  {
    && e.Command? && e.request.Login?
    && FindUser(s.users, e.request.username) == Some(u)
    && e.now >= s.users[u].lastBlocked
  }

  predicate Wrong(s: State, e: Event, u: nat)
    requires u < |s.users|
  {
    Attempts(s, e, u) && e.request.password != s.users[u].password
  }

  // The wrong attempt that starts a lock.
  predicate Locks(s: State, e: Event, u: nat)
    requires u < |s.users|
  {
    Wrong(s, e, u) && s.users[u].attempts == 2
  }

  predicate Succeeds(s: State, e: Event, u: nat)
    requires u < |s.users|
  {
    Attempts(s, e, u) && e.request.password == s.users[u].password && !Online(s, u, e.now)
  }

  function Count(b: bool): nat { if b then 1 else 0 }

  // attempts never leaves 0..2 once it is there.
  predicate InRange(s: State, u: nat)
    requires u < |s.users|
  {
    0 <= s.users[u].attempts <= 2
  }

  // What an event makes of the attempts and the lock.
  function AttemptsAfter(s: State, e: Event, u: nat): int
    requires u < |s.users|
  {
    if Locks(s, e, u) || Succeeds(s, e, u) then 0 else s.users[u].attempts + Count(Wrong(s, e, u))
  }

  function LockAfter(s: State, e: Event, u: nat): int
    requires u < |s.users|
  {
    if Locks(s, e, u) then e.now + s.blockDuration else s.users[u].lastBlocked
  }

  predicate SameNames(s: State, t: State)
  {
    && |t.users| == |s.users| && t.blockDuration == s.blockDuration
    && forall i :: 0 <= i < |s.users| ==>
         t.users[i].name == s.users[i].name && t.users[i].password == s.users[i].password
  }

  predicate IsLogin(e: Event)
  {
    e.Command? && e.request.Login?
  }

  // Only logins touch the gates.
  lemma OtherEventGates(s: State, e: Event)
    requires Scoped(s) && InTable(s, e) && !IsLogin(e)
    ensures SameGates(s, Step(s, e))
  {
    hide LoginOn, MemberCommand, FanOut, Touch, LogoutUser;
    match e
    case Accept(fd) =>
    case Disconnect(j, now) => LogoutEffect(s, s.conns[j].user, now);
    case Expire(j, now) => LogoutEffect(s, s.conns[j].user, now);
    case Writable(_, _, _, _) =>
    case Command(j, request, now) =>
      if ConnOnline(s, j, now) {
        MemberGates(s, j, s.conns[j].user.value, request, now);
      }
      CommandTail(s, j, request, now);
  }

  // What one event does to the gate of u.
  lemma GateStep(s: State, e: Event, u: nat)
    requires Scoped(s) && InTable(s, e) && u < |s.users| && InRange(s, u)
    ensures var t := Step(s, e);
      && SameNames(s, t) && InRange(t, u)
      && t.users[u].attempts == AttemptsAfter(s, e, u)
      && t.users[u].lastBlocked == LockAfter(s, e, u)
  {
    if IsLogin(e) {
      LoginGates(s, e.slot, e.request.username, e.request.password, e.now, u);
      CommandTail(s, e.slot, e.request, e.now);
      hide LoginOn, Touch, DoCommand, AttemptsAfter, LockAfter, MemberCommand;
    } else {
      OtherEventGates(s, e);
      hide Step;
    }
  }

  lemma AuthenticateGate(a: Account, password: Name, online: bool, blockDuration: int, now: int)
    ensures var (b, verdict) := Authenticate(a, password, online, blockDuration, now);
      var wrong := now >= a.lastBlocked && password != a.password;
      && b.name == a.name && b.password == a.password
      && (verdict.Granted? <==> now >= a.lastBlocked && password == a.password && !online)
      && b.attempts == (if (wrong && a.attempts == 2) || verdict.Granted? then 0 else a.attempts + Count(wrong))
      && b.lastBlocked == (if wrong && a.attempts == 2 then now + blockDuration else a.lastBlocked)
  {
  }

  lemma LoginGates(s: State, j: nat, username: Name, password: Name, now: int, u: nat)
    requires Scoped(s) && j < |s.conns| && u < |s.users| && InRange(s, u)
    ensures var t := LoginOn(s, j, username, password, now).0;
      var e := Command(j, Login(username, password), now);
      && SameNames(s, t)
      && t.users[u].attempts == AttemptsAfter(s, e, u)
      && t.users[u].lastBlocked == LockAfter(s, e, u)
  {
    hide LoginOn;
    LoginEffect(s, j, username, password, now);
    var found := FindUser(s.users, username);
    if found.Some? {
      var v := found.value;
      AuthenticateGate(s.users[v], password, Online(s, v, now), s.blockDuration, now);
      hide Authenticate;
    }
  }

  // ------------------------------------------------------------- whole runs

  // Over a run: wrong comparisons, locks, and attempts forgiven by a successful login.
  datatype Tally = Tally(wrong: nat, locks: nat, forgiven: nat)

  function TallyOf(s: State, es: seq<Event>, u: nat): Tally
    requires Scoped(s) && Possible(s, es) && u < |s.users| && InRange(s, u)
    decreases |es|
  {
    if es == [] then Tally(0, 0, 0)
    else
      GateStep(s, es[0], u);
      var rest := TallyOf(Step(s, es[0]), es[1..], u);
      Tally(rest.wrong + Count(Wrong(s, es[0], u)), rest.locks + Count(Locks(s, es[0], u)),
            rest.forgiven + if Succeeds(s, es[0], u) then s.users[u].attempts else 0)
  }

  // Conservation: every wrong comparison is accounted for. Three make a lock, a successful
  // login forgives the pending ones, and the rest are the attempts still pending.
  lemma {:induction false} AttemptsConserved(s: State, es: seq<Event>, u: nat)
    requires Scoped(s) && Possible(s, es) && u < |s.users| && InRange(s, u)
    ensures InRange(Run(s, es), u)
    ensures var n := TallyOf(s, es, u);
      n.wrong + s.users[u].attempts == 3 * n.locks + n.forgiven + Run(s, es).users[u].attempts
    decreases |es|
  {
    hide Step, Attempts;
    if es != [] {
      GateStep(s, es[0], u);
      AttemptsConserved(Step(s, es[0]), es[1..], u);
    }
  }

  // The clock readings of a run lie between lo and hi and never go back.
  predicate Clocked(es: seq<Event>, lo: int, hi: int)
    decreases |es|
  {
    lo <= hi &&
    (es == [] ||
     if es[0].Accept? then Clocked(es[1..], lo, hi)
     else lo <= es[0].now && Clocked(es[1..], es[0].now, hi))
  }

  function Later(a: int, b: int): int { if a < b then b else a }

  // Consecutive locks of one account are at least blockDuration apart, so a stretch of time
  // holds only so many of them.
  lemma {:induction false} LocksSpaced(s: State, es: seq<Event>, u: nat, lo: int, hi: int)
    requires Scoped(s) && Possible(s, es) && u < |s.users| && InRange(s, u) && Clocked(es, lo, hi)
    ensures var n := TallyOf(s, es, u).locks;
      n > 0 ==> Later(lo, s.users[u].lastBlocked) + (n - 1) * s.blockDuration <= hi
    decreases |es|
  {
    hide Step, Succeeds;
    if es != [] {
      var e := es[0];
      GateStep(s, e, u);
      var lo' := if e.Accept? then lo else e.now;
      LocksSpaced(Step(s, e), es[1..], u, lo', hi);
      if Locks(s, e, u) {
        SpacedStep(TallyOf(Step(s, e), es[1..], u).locks, e.now, s.blockDuration, hi);
      }
    }
  }

  lemma SpacedStep(m: nat, now: int, d: int, hi: int)
    requires now <= hi && (m > 0 ==> Later(now, now + d) + (m - 1) * d <= hi)
    ensures now + m * d <= hi
  {
  }

  // In a stretch of hi - lo seconds at most three wrong guesses per lock period and two more
  // are compared with the password, besides those that a successful login forgave.
  lemma GuessBound(s: State, es: seq<Event>, u: nat, lo: int, hi: int)
    requires Scoped(s) && Possible(s, es) && u < |s.users| && InRange(s, u) && Clocked(es, lo, hi)
    requires s.blockDuration > 0
    ensures var n := TallyOf(s, es, u);
      n.wrong <= 3 * ((hi - lo) / s.blockDuration + 1) + 2 + n.forgiven
  {
    hide Run, Possible, TallyOf, Step;
    AttemptsConserved(s, es, u);
    LocksSpaced(s, es, u, lo, hi);
    var n := TallyOf(s, es, u).locks;
    GuessArithmetic(n, s.blockDuration, hi - lo);
  }

  lemma GuessArithmetic(n: nat, d: int, span: int)
    requires 0 < d && 0 <= span && (n > 0 ==> (n - 1) * d <= span)
    ensures n <= span / d + 1
  {
    var q := span / d;
    assert span < (q + 1) * d;
    if q + 2 <= n {
      MultiplyMonotone(q + 1, n - 1, d);
      assert false;
    }
  }

  // While the lock lasts a login attempt on the account changes nothing, right or wrong
  // password, and is answered alike.
  lemma LockedAttemptsAreInert(s: State, j: nat, username: Name, password: Name, now: int)
    requires Scoped(s) && j < |s.conns|
    requires FindUser(s.users, username).Some? && now < s.users[FindUser(s.users, username).value].lastBlocked
    ensures RunCommand(s, j, Login(username, password), now) == (s, Some(AccountLocked))
  {
    var u := FindUser(s.users, username).value;
    assert s.users[u := s.users[u]] == s.users;
  }

  // What a login attempt is told, by what it counts as. The attempt that starts a lock is
  // answered like one that meets it.
  lemma LoginReplies(s: State, j: nat, username: Name, password: Name, now: int)
    requires Scoped(s) && j < |s.conns|
    ensures var reply := LoginOn(s, j, username, password, now).1;
      var e := Command(j, Login(username, password), now);
      match FindUser(s.users, username)
      case None => reply == NoSuchUser
      case Some(u) =>
        && (reply == Welcome <==> Succeeds(s, e, u))
        && (reply == WrongPassword <==> Wrong(s, e, u) && !Locks(s, e, u))
        && (reply == SessionInPlace <==> Attempts(s, e, u) && !Wrong(s, e, u) && Online(s, u, now))
        && (reply == AccountLocked <==> !Attempts(s, e, u) || Locks(s, e, u))
  {
    hide FanOut, Attach;
  }
}
