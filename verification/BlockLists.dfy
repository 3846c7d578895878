// blockUser and unblockUser over any sequence of calls: the list behaves as a set, and keeps
// its order.
module BlockLists {
  import opened Basics
  import opened Sessions
  import opened SessionInvariant

  datatype BlockOp = Add(u: nat) | Remove(u: nat)

  function Apply(me: nat, list: seq<nat>, op: BlockOp): seq<nat>
  {
    match op
    case Add(u) => BlockUser(me, list, u)
    case Remove(u) => UnblockWalk(list, u)
  }

  function ApplyAll(me: nat, list: seq<nat>, ops: seq<BlockOp>): seq<nat>
    decreases |ops|
  {
    if ops == [] then list else ApplyAll(me, Apply(me, list, ops[0]), ops[1..])
  }

  function Member(me: nat, members: set<nat>, op: BlockOp): set<nat>
  {
    match op
    case Add(u) => if u == me then members else members + {u}
    case Remove(u) => members - {u}
  }

  // The set that the list stands for: who was added and not removed since, and never oneself.
  function MembersAfter(me: nat, members: set<nat>, ops: seq<BlockOp>): set<nat>
    decreases |ops|
  {
    if ops == [] then members else MembersAfter(me, Member(me, members, ops[0]), ops[1..])
  }

  ghost predicate BlockSet(me: nat, list: seq<nat>, members: set<nat>)
  {
    NoDuplicates(list) && me !in list && forall u :: u in list <==> u in members
  }

  lemma ApplySet(me: nat, list: seq<nat>, members: set<nat>, op: BlockOp)
    requires BlockSet(me, list, members)
    ensures BlockSet(me, Apply(me, list, op), Member(me, members, op))
  {
    if op.Remove? {
      UnblockRemoves(list, op.u);
      WithoutElements(list, op.u);
    }
  }

  lemma {:induction false} BlockListsAreSets(me: nat, list: seq<nat>, members: set<nat>, ops: seq<BlockOp>)
    requires BlockSet(me, list, members)
    ensures BlockSet(me, ApplyAll(me, list, ops), MembersAfter(me, members, ops))
    decreases |ops|
  {
    hide BlockSet, Apply, Member;
    if ops != [] {
      ApplySet(me, list, members, ops[0]);
      BlockListsAreSets(me, Apply(me, list, ops[0]), Member(me, members, ops[0]), ops[1..]);
    }
  }

  // Unblocking undoes blocking, order included.
  lemma UnblockUndoesBlock(me: nat, list: seq<nat>, u: nat)
    requires NoDuplicates(list) && u != me && u !in list
    ensures UnblockWalk(BlockUser(me, list, u), u) == list
  {
    var longer := [u] + list;
    assert longer[1..] == list;
    UnblockRemoves(longer, u);
    WithoutAbsent(list, u);
  }
}
