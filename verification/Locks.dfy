// The two threads of the server and the connection locks they take. close_socket is the
// only place that asks for a second lock while it holds one: it holds the lock of the
// connection it closes while it tells the other users, each under the lock of that
// user's connection.
module Locks {
  import opened Basics

  datatype Thread = Net | Time

  // Where the network thread is.
  datatype NetPc =
    | NetIdle
    | WantPlain(slot: nat)                                      // send_response_to_client, or the send branch
    | HoldPlain(slot: nat)
    | WantClose(closing: nat)                                   // close_socket, before its lock
    | Detaching(closing: nat)                                   // locked; the pointer writes of logoutUser
    | Notifying(closing: nat, leaver: nat, k: nat)              // about to look at user k
    | WantNotify(closing: nat, leaver: nat, k: nat, slot: nat)  // telling user k, before that lock
    | HoldNotify(closing: nat, leaver: nat, k: nat, slot: nat)
    | Releasing(closing: nat)

  // Where the timer thread is; it never holds a lock while it asks for another.
  datatype TimePc =
    | TimeIdle
    | TimeWant(slot: nat)
    | TimeHold(slot: nat)

  // Session pointers both ways, lock owners, and the two program counters.
  datatype Machine = Machine(
    client: seq<Option<nat>>,
    user: seq<Option<nat>>,
    owner: seq<Option<Thread>>,
    net: NetPc,
    time: TimePc
  )

  datatype Action =
    | BeginPlain(slot: nat)
    | BeginClose(slot: nat)
    | Login(who: nat, slot: nat)
    | Accept(slot: nat)             // a new connection there; the one it replaces is freed
    | LookAt(hears: bool)           // whether user k is online and not blocked by the leaver
    | NetGo                         // the one thing the network thread can do otherwise
    | ExpireUser(who: nat)
    | BeginTime(slot: nat)
    | TimeGo

  predicate IsNet(a: Action)
  {
    !a.ExpireUser? && !a.BeginTime? && !a.TimeGo?
  }

  predicate Free(m: Machine, d: nat)
  {
    d < |m.owner| && m.owner[d] == None
  }

  function Lock(m: Machine, d: nat, t: Thread): Machine
    requires d < |m.owner|
  {
    m.(owner := m.owner[d := Some(t)])
  }

  function Unlock(m: Machine, d: nat): Machine
    requires d < |m.owner|
  {
    m.(owner := m.owner[d := None])
  }

  // The pointer writes of logoutUser(u).
  function DetachUser(m: Machine, u: nat): Machine
    requires u < |m.client|
  {
    if m.client[u].None? || m.client[u].value >= |m.user| then m
    else m.(user := m.user[m.client[u].value := None], client := m.client[u := None])
  }

  function NetNext(m: Machine): Option<Machine>
  {
    match m.net
    case WantPlain(d) => if Free(m, d) then Some(Lock(m, d, Net).(net := HoldPlain(d))) else None
    case HoldPlain(d) => if d < |m.owner| then Some(Unlock(m, d).(net := NetIdle)) else None
    case WantClose(c) => if Free(m, c) then Some(Lock(m, c, Net).(net := Detaching(c))) else None
    case Detaching(c) =>
      if c >= |m.user| then None
      else if m.user[c].None? || m.user[c].value >= |m.client| || m.client[m.user[c].value].None? then
        Some(m.(net := Releasing(c)))
      else Some(DetachUser(m, m.user[c].value).(net := Notifying(c, m.user[c].value, 0)))
    case Notifying(c, u, k) => if k >= |m.client| then Some(m.(net := Releasing(c))) else None
    case WantNotify(c, u, k, d) => if Free(m, d) then Some(Lock(m, d, Net).(net := HoldNotify(c, u, k, d))) else None
    case HoldNotify(c, u, k, d) => if d < |m.owner| then Some(Unlock(m, d).(net := Notifying(c, u, k + 1))) else None
    case Releasing(c) => if c < |m.owner| then Some(Unlock(m, c).(net := NetIdle)) else None
    case NetIdle => None
  }

  // No other user is attached to the connection.
  predicate LoginGuard(m: Machine, u: nat, c: nat)
  {
    forall v :: 0 <= v < |m.client| && v != u ==> m.client[v] != Some(c)
  }

  function Attach(m: Machine, u: nat, c: nat): Machine
    requires u < |m.client| && c < |m.user|
  {
    m.(client := m.client[u := Some(c)], user := m.user[c := Some(u)])
  }

  // The slot is the next one, or nobody's session is on it and the timer is not using it.
  predicate Vacant(m: Machine, c: nat)
  {
    && c <= |m.user| == |m.owner|
    && (forall v :: 0 <= v < |m.client| ==> m.client[v] != Some(c))
    && (c < |m.owner| ==> m.owner[c] == None && !(m.time.TimeWant? && m.time.slot == c))
  }

  function Install(m: Machine, c: nat): Machine
    requires c <= |m.user| == |m.owner|
  {
    if c < |m.user| then m.(user := m.user[c := None], owner := m.owner[c := None])
    else m.(user := m.user + [None], owner := m.owner + [None])
  }

  // None when the action is not possible now.
  function Next(m: Machine, a: Action): Option<Machine>
  {
    match a
    case BeginPlain(d) => if m.net.NetIdle? && d < |m.owner| then Some(m.(net := WantPlain(d))) else None
    case BeginClose(c) => if m.net.NetIdle? && c < |m.owner| then Some(m.(net := WantClose(c))) else None
    case Login(u, c) =>
      if m.net.NetIdle? && u < |m.client| && c < |m.user| && LoginGuard(m, u, c) then Some(Attach(m, u, c)) else None
    case Accept(c) => if m.net.NetIdle? && Vacant(m, c) then Some(Install(m, c)) else None
    case LookAt(hears) =>
      if m.net.Notifying? && m.net.k < |m.client| then
        (if hears && m.net.k != m.net.leaver && m.client[m.net.k].Some? then
           Some(m.(net := WantNotify(m.net.closing, m.net.leaver, m.net.k, m.client[m.net.k].value)))
         else Some(m.(net := Notifying(m.net.closing, m.net.leaver, m.net.k + 1))))
      else None
    case NetGo => NetNext(m)
    case ExpireUser(u) => if m.time.TimeIdle? && u < |m.client| then Some(DetachUser(m, u)) else None
    case BeginTime(d) => if m.time.TimeIdle? && d < |m.owner| then Some(m.(time := TimeWant(d))) else None
    case TimeGo =>
      match m.time
      case TimeIdle => None
      case TimeWant(d) => if Free(m, d) then Some(Lock(m, d, Time).(time := TimeHold(d))) else None
      case TimeHold(d) => if d < |m.owner| then Some(Unlock(m, d).(time := TimeIdle)) else None
  }

  predicate NetHolds(pc: NetPc, d: nat)
  {
    match pc
    case HoldPlain(slot) => d == slot
    case Detaching(c) => d == c
    case Notifying(c, _, _) => d == c
    case WantNotify(c, _, _, _) => d == c
    case HoldNotify(c, _, _, slot) => d == c || d == slot
    case Releasing(c) => d == c
    case _ => false
  }

  function NetWants(pc: NetPc): Option<nat>
  {
    match pc
    case WantPlain(d) => Some(d)
    case WantClose(c) => Some(c)
    case WantNotify(_, _, _, d) => Some(d)
    case _ => None
  }

  predicate TimeHolds(pc: TimePc, d: nat)
  {
    pc == TimeHold(d)
  }

  // The network thread is telling users that someone left connection c.
  predicate TellingAbout(pc: NetPc, c: nat)
  {
    (pc.Notifying? || pc.WantNotify? || pc.HoldNotify?) && pc.closing == c
  }

  // Sessions are linked both ways.
  predicate Linked(m: Machine)
  {
    && (forall v :: 0 <= v < |m.client| && m.client[v].Some? ==>
          m.client[v].value < |m.user| && m.user[m.client[v].value] == Some(v))
    && (forall c :: 0 <= c < |m.user| && m.user[c].Some? ==> m.user[c].value < |m.client|)
  }

  // The slots that the program counters mention exist.
  predicate InRange(m: Machine)
  {
    && |m.owner| == |m.user|
    && (match m.net
        case NetIdle => true
        case WantPlain(d) => d < |m.owner|
        case HoldPlain(d) => d < |m.owner|
        case WantClose(c) => c < |m.owner|
        case Detaching(c) => c < |m.owner|
        case Notifying(c, _, _) => c < |m.owner|
        case WantNotify(c, _, _, d) => c < |m.owner| && d < |m.owner| && c != d
        case HoldNotify(c, _, _, d) => c < |m.owner| && d < |m.owner| && c != d
        case Releasing(c) => c < |m.owner|)
    && (!m.time.TimeIdle? ==> m.time.slot < |m.owner|)
  }

  // A lock is owned by the thread whose program counter says so, and by no other.
  predicate Owners(m: Machine)
  {
    forall d :: 0 <= d < |m.owner| ==>
      && (m.owner[d] == Some(Net) <==> NetHolds(m.net, d))
      && (m.owner[d] == Some(Time) <==> TimeHolds(m.time, d))
  }

  // While it tells users that someone left c, nobody's session is on c.
  predicate Vacated(m: Machine)
  {
    forall v :: 0 <= v < |m.client| && m.client[v].Some? ==> !TellingAbout(m.net, m.client[v].value)
  }

  predicate Inv(m: Machine)
  {
    InRange(m) && Linked(m) && Owners(m) && Vacated(m)
  }

  // A step that is possible keeps the invariant.
  predicate Kept(next: Option<Machine>)
  {
    next.Some? ==> Inv(next.value)
  }

  lemma DetachKeeps(m: Machine, u: nat)
    requires u < |m.client| && Linked(m)
    ensures var t := DetachUser(m, u);
      && Linked(t) && |t.client| == |m.client| && |t.user| == |m.user|
      && t.client[u] == None
      && (forall v :: 0 <= v < |m.client| && v != u ==> t.client[v] == m.client[v])
  {
  }

  lemma DetachingInv(m: Machine)
    requires Inv(m) && m.net.Detaching?
    ensures Kept(NetNext(m))
  {
    var c := m.net.closing;
    if m.user[c].Some? {
      DetachKeeps(m, m.user[c].value);
      hide DetachUser;
      assert forall v :: 0 <= v < |m.client| && m.client[v] == Some(c) ==> v == m.user[c].value;
    }
  }

  lemma GrabInv(m: Machine)
    requires Inv(m) && NetWants(m.net).Some?
    ensures Kept(NetNext(m))
  {
    hide DetachUser;
  }

  lemma DropInv(m: Machine)
    requires Inv(m) && (m.net.HoldPlain? || m.net.HoldNotify? || m.net.Releasing?)
    ensures Kept(NetNext(m))
  {
    hide DetachUser;
  }

  lemma NetGoInv(m: Machine)
    requires Inv(m)
    ensures Kept(NetNext(m))
  {
    if NetWants(m.net).Some? {
      GrabInv(m);
    } else if m.net.Detaching? {
      DetachingInv(m);
    } else if m.net.HoldPlain? || m.net.HoldNotify? || m.net.Releasing? {
      DropInv(m);
    }
  }

  lemma LookAtInv(m: Machine, hears: bool)
    requires Inv(m)
    ensures Kept(Next(m, LookAt(hears)))
  {
    hide NetNext, DetachUser, Attach, Install, Vacant;
  }

  // What an idle network thread can start.
  lemma StartInv(m: Machine, a: Action)
    requires Inv(m) && IsNet(a) && !a.NetGo? && !a.LookAt?
    ensures Kept(Next(m, a))
  {
    hide NetNext, DetachUser;
    if a.Accept? && m.net.NetIdle? && Vacant(m, a.slot) {
      InstallInv(m, a.slot);
    }
    hide Install;
  }

  lemma InstallInv(m: Machine, c: nat)
    requires Inv(m) && m.net.NetIdle? && Vacant(m, c)
    ensures Inv(Install(m, c))
  {
  }

  lemma TimeInv(m: Machine, a: Action)
    requires Inv(m) && !IsNet(a)
    ensures Kept(Next(m, a))
  {
    hide NetNext, Attach;
    if a.ExpireUser? && a.who < |m.client| {
      DetachKeeps(m, a.who);
    }
  }

  lemma NextInv(m: Machine, a: Action)
    requires Inv(m)
    ensures Kept(Next(m, a))
  {
    hide Inv;
    match a
    case NetGo => NetGoInv(m);
    case ExpireUser(_) => TimeInv(m, a);
    case BeginTime(_) => TimeInv(m, a);
    case TimeGo => TimeInv(m, a);
    case LookAt(hears) => LookAtInv(m, hears);
    case _ => StartInv(m, a);
  }

  // The machine after a schedule; actions that are not possible when their turn comes are skipped.
  function Run(m: Machine, schedule: seq<Action>): Machine
    decreases |schedule|
  {
    if schedule == [] then m
    else
      var next := Next(m, schedule[0]);
      Run(if next.Some? then next.value else m, schedule[1..])
  }

  lemma {:induction false} RunInv(m: Machine, schedule: seq<Action>)
    requires Inv(m)
    ensures Inv(Run(m, schedule))
    decreases |schedule|
  {
    hide Inv, Next;
    if schedule != [] {
      var next := Next(m, schedule[0]);
      if next.Some? {
        NextInv(m, schedule[0]);
        RunInv(next.value, schedule[1..]);
      } else {
        RunInv(m, schedule[1..]);
      }
    }
  }

  predicate NetBlocked(m: Machine)
  {
    NetWants(m.net).Some? && !Free(m, NetWants(m.net).value)
  }

  predicate TimeBlocked(m: Machine)
  {
    m.time.TimeWant? && !Free(m, m.time.slot)
  }

  // The network thread's remaining steps until it holds nothing.
  function NetRank(m: Machine): nat
  {
    match m.net
    case NetIdle => 0
    case HoldPlain(_) => 1
    case WantPlain(_) => 2
    case Releasing(_) => 1
    case Notifying(_, _, k) => 2 + 3 * (if k < |m.client| then |m.client| - k else 0)
    case WantNotify(_, _, k, _) => 1 + 3 * (if k < |m.client| then |m.client| - k else 1)
    case HoldNotify(_, _, k, _) => 3 * (if k < |m.client| then |m.client| - k else 1)
    case Detaching(_) => 3 + 3 * |m.client|
    case WantClose(_) => 4 + 3 * |m.client|
  }

  lemma BlockedNet(m: Machine)
    requires Inv(m) && NetWants(m.net).Some?
    ensures !NetHolds(m.net, NetWants(m.net).value)
    ensures NetBlocked(m) ==> m.time.TimeHold? && Next(m, TimeGo).Some? && !NetBlocked(Next(m, TimeGo).value)
  {
    hide Linked, NetNext;
    var d := NetWants(m.net).value;
    if NetBlocked(m) {
      assert m.owner[d].value == Net || m.owner[d].value == Time;
    }
  }

  lemma BlockedTime(m: Machine)
    requires Inv(m) && TimeBlocked(m)
    ensures m.owner[m.time.slot] == Some(Net) && NetHolds(m.net, m.time.slot)
    ensures !NetBlocked(m)
  {
    hide Linked, NetNext;
    match m.owner[m.time.slot].value {
      case Net =>
      case Time =>
    }
    if NetBlocked(m) {
      BlockedNet(m);
    }
  }

  // What the network thread does next while it holds a lock and is not blocked.
  lemma HolderMoves(m: Machine, d: nat)
    requires Inv(m) && NetHolds(m.net, d) && !NetBlocked(m)
    ensures exists a :: IsNet(a) && Next(m, a).Some? && NetRank(Next(m, a).value) < NetRank(m)
  {
    var a := if m.net.Notifying? && m.net.k < |m.client| then LookAt(false) else NetGo;
    StepsRelease(m, a);
    hide DetachUser;
    assert Next(m, a).Some?;
  }

  // Whatever the schedule: no thread waits for a lock it holds, the two never wait for each
  // other, and whoever is waited for can move on.
  lemma NoDeadlock(m: Machine, schedule: seq<Action>)
    requires Inv(m)
    ensures var t := Run(m, schedule);
      && (NetWants(t.net).Some? ==> !NetHolds(t.net, NetWants(t.net).value))
      && !(NetBlocked(t) && TimeBlocked(t))
      && (NetBlocked(t) ==> Next(t, TimeGo).Some? && !NetBlocked(Next(t, TimeGo).value))
      && (TimeBlocked(t) ==> exists a :: IsNet(a) && Next(t, a).Some? && NetRank(Next(t, a).value) < NetRank(t))
  {
    hide Inv, Next, NetRank;
    RunInv(m, schedule);
    var t := Run(m, schedule);
    if NetWants(t.net).Some? {
      BlockedNet(t);
    }
    if TimeBlocked(t) {
      BlockedTime(t);
      HolderMoves(t, t.time.slot);
    }
  }

  // Every step of a network thread that is not idle brings it closer to holding nothing, and
  // the timer's steps do not set it back: a lock is never held for ever.
  lemma StepsRelease(m: Machine, a: Action)
    requires Inv(m)
    ensures Next(m, a).Some? && IsNet(a) && !m.net.NetIdle? ==> NetRank(Next(m, a).value) < NetRank(m)
    ensures Next(m, a).Some? && !IsNet(a) ==> NetRank(Next(m, a).value) == NetRank(m)
  {
    hide Next, NetRank;
    if IsNet(a) && !m.net.NetIdle? {
      NetReleases(m, a);
    } else if !IsNet(a) {
      TimerKeepsRank(m, a);
    }
  }

  lemma NetReleases(m: Machine, a: Action)
    requires Inv(m) && IsNet(a) && !m.net.NetIdle?
    ensures Next(m, a).Some? ==> NetRank(Next(m, a).value) < NetRank(m)
  {
    hide Owners, Vacated;
    if a.NetGo? && m.net.Detaching? && m.user[m.net.closing].Some? {
      DetachKeeps(m, m.user[m.net.closing].value);
    }
    hide DetachUser;
  }

  lemma TimerKeepsRank(m: Machine, a: Action)
    requires Inv(m) && !IsNet(a)
    ensures Next(m, a).Some? ==> NetRank(Next(m, a).value) == NetRank(m)
  {
    hide Owners, Vacated, NetNext;
    if a.ExpireUser? && a.who < |m.client| {
      DetachKeeps(m, a.who);
    }
    hide DetachUser;
  }
}
