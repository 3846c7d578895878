// UserDb of lib/auth.c: a linked list of users with a trie beside it that must answer
// every lookup as a scan of the list would.
module UserIndex {
  import opened Basics
  import opened Tries
  import opened Entities

  // The linear scan that the trie replaces: the first user of that name.
  function FirstMatch(list: seq<User>, name: Name): User?
  {
    if list == [] then null
    else if list[0].username == name then list[0]
    else FirstMatch(list[1..], name)
  }

  lemma {:induction false} FirstMatchIsFirst(list: seq<User>, name: Name)
    ensures FirstMatch(list, name) == null <==> forall i :: 0 <= i < |list| ==> list[i].username != name
    ensures FirstMatch(list, name) != null ==>
      exists i :: 0 <= i < |list| && list[i] == FirstMatch(list, name) && list[i].username == name
        && forall j :: 0 <= j < i ==> list[j].username != name
  {
    if list != [] && list[0].username != name {
      var tail := list[1..];
      FirstMatchIsFirst(tail, name);
      assert forall i :: 0 <= i < |tail| ==> tail[i] == list[i + 1];
      if FirstMatch(tail, name) != null {
        var i :| 0 <= i < |tail| && tail[i] == FirstMatch(tail, name) && tail[i].username == name
          && forall j :: 0 <= j < i ==> tail[j].username != name;
        forall j | 0 <= j < i + 1 ensures list[j].username != name {
          if j > 0 { assert list[j] == tail[j - 1]; }
        }
        assert list[i + 1] == FirstMatch(list, name);
      } else {
        forall j | 0 <= j < |list| ensures list[j].username != name {
          if j > 0 { assert list[j] == tail[j - 1]; }
        }
      }
    }
  }

  // However many users are put in front of a list, a name that none of them has is looked up
  // as before, and any other finds the one of them that was put there last.
  lemma {:induction false} AddingShadowsOnlyOwnNames(added: seq<User>, list: seq<User>, name: Name)
    ensures (forall u <- added :: u.username != name) ==> FirstMatch(added + list, name) == FirstMatch(list, name)
    ensures (exists u <- added :: u.username == name) ==> FirstMatch(added + list, name) == FirstMatch(added, name)
  {
    if added == [] {
      assert added + list == list;
    } else if added[0].username != name {
      assert (added + list)[1..] == added[1..] + list;
      AddingShadowsOnlyOwnNames(added[1..], list, name);
      assert forall u :: u in added <==> u == added[0] || u in added[1..];
    }
  }

  class UserDb {
    var first: seq<User>          // db->first, newest user first
    const root: Trie<User?>       // db->root
    const blockDuration: int
    const loginTimeout: int

    // Every lookup through the trie agrees with the scan, also for repeated names.
    ghost predicate Valid()
      reads this, root, root.Repr
    {
      && this !in root.Repr
      && root.Valid() && root.blank == null
      && (forall name :: root.At(name) == FirstMatch(first, name))
      && (forall i :: 0 <= i < |first| ==> first[i].rank == |first| - 1 - i)
    }

    constructor (blockDuration: int, loginTimeout: int)
      ensures Valid() && fresh(root) && fresh(root.Repr)
      ensures first == [] && this.blockDuration == blockDuration && this.loginTimeout == loginTimeout
    {
      this.blockDuration, this.loginTimeout := blockDuration, loginTimeout;
      first := [];
      root := new Trie<User?>(null);
    }

    method AddUser(username: Name, password: Name) returns (u: User)
      requires Valid()
      modifies this`first, root, root.Repr
      ensures Valid() && fresh(root.Repr - old(root.Repr))
      ensures fresh(u) && u !in root.Repr && u.username == username && u.password == password
      ensures u.lastLoggedIn == u.lastActive == u.lastBlocked == -1 && u.attempts == 0
      ensures u.client == null && u.blocked == [] && u.buffer == []
      ensures first == [u] + old(first)
    {
      hide Trie.Linked, Trie.PrefixClosed, Trie.Valid, Trie.At;
      u := new User(username, password, |first|);
      ghost var before := first;
      first := [u] + first;
      assert first[1..] == before;
      var node := root.LocateOrCreate(username);
      root.SetValue(node, username, u);
    }

    method FindUser(username: Name) returns (u: User?)
      requires Valid()
      ensures u == FirstMatch(first, username)
    {
      var node := root.Locate(username);
      u := if node == null then null else node.value;
    }

    method FindOrAddUser(username: Name) returns (u: User)
      requires Valid()
      modifies this`first, root, root.Repr
      ensures Valid() && fresh(root.Repr - old(root.Repr))
      ensures u == FirstMatch(first, username)
      ensures if old(FirstMatch(first, username)) != null
        then u == old(FirstMatch(first, username)) && first == old(first)
        else fresh(u) && u.username == username && u.password == [] && first == [u] + old(first)
    {
      var found := FindUser(username);
      if found != null {
        return found;
      }
      u := AddUser(username, []);
    }
  }

  // buildUserDb: one user for every pair that was read, in reading order.
  method BuildUserDb(credentials: seq<(Name, Name)>, blockDuration: int, loginTimeout: int) returns (db: UserDb)
    ensures fresh(db) && db.Valid() && fresh(db.root) && fresh(db.root.Repr)
    ensures db.blockDuration == blockDuration && db.loginTimeout == loginTimeout
    ensures |db.first| == |credentials|
    ensures forall i :: 0 <= i < |credentials| ==>
      var u := db.first[i];
      && fresh(u) && u !in db.root.Repr && (u.username, u.password) == credentials[|credentials| - 1 - i]
      && u.lastLoggedIn == u.lastActive == u.lastBlocked == -1 && u.attempts == 0
      && u.client == null && u.blocked == [] && u.buffer == []
  {
    db := new UserDb(blockDuration, loginTimeout);
    var k := 0;
    while k < |credentials|
      invariant 0 <= k <= |credentials|
      invariant fresh(db) && db.Valid() && fresh(db.root) && fresh(db.root.Repr)
      invariant |db.first| == k
      invariant forall i :: 0 <= i < k ==>
        var u := db.first[i];
        && fresh(u) && u !in db.root.Repr && (u.username, u.password) == credentials[k - 1 - i]
        && u.lastLoggedIn == u.lastActive == u.lastBlocked == -1 && u.attempts == 0
        && u.client == null && u.blocked == [] && u.buffer == []
    {
      ghost var before := db.first;
      var u := db.AddUser(credentials[k].0, credentials[k].1);
      k := k + 1;
      assert forall i :: 0 < i < k ==> db.first[i] == before[i - 1];
    }
  }
}
