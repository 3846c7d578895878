// The 256-way trie that lib/auth.c and lib/file.c both walk byte by byte.
module Tries {
  import opened Basics

  class TrieNode<V> {
    var value: V
    const child: array<TrieNode?<V>>

    constructor (v: V)
      ensures value == v && fresh(child) && child.Length == 256
      ensures forall b: byte :: child[b] == null
    {
      value := v;
      child := new TrieNode?<V>[256](_ => null);
    }
  }

  class Trie<V> {
    const root: TrieNode<V>
    const blank: V   // what a new node holds
    ghost var nodes: map<Name, TrieNode<V>>   // every node, by the path that leads to it
    ghost var Repr: set<object>

    ghost predicate Valid()
      reads this, Repr
    {
      && this !in Repr
      && [] in nodes && nodes[[]] == root
      && (forall p :: p in nodes ==> nodes[p] in Repr && nodes[p].child in Repr && nodes[p].child.Length == 256)
      && (forall p, q :: p in nodes && q in nodes && p != q ==>
            nodes[p] != nodes[q] && nodes[p].child != nodes[q].child)
      && (forall p, b: byte :: p in nodes ==> Linked(nodes, p, nodes[p].child[b], b))
      && PrefixClosed(nodes)
    }

    // The edge out of path p under byte b.
    static ghost predicate Linked(nodes: map<Name, TrieNode<V>>, p: Name, c: TrieNode?<V>, b: byte)
    {
      if p + [b] in nodes then c == nodes[p + [b]] else c == null
    }

    static ghost predicate PrefixClosed(nodes: map<Name, TrieNode<V>>)
    {
      forall p, k :: p in nodes && 0 <= k <= |p| ==> p[..k] in nodes
    }

    // What the trie holds for a name; a name without a node holds the blank value.
    ghost function At(name: Name): V
      reads this, Repr
      requires Valid()
    {
      if name in nodes then nodes[name].value else blank
    }

    constructor (blank: V)
      ensures Valid() && fresh(Repr) && this.blank == blank
      ensures forall name :: At(name) == blank
    {
      this.blank := blank;
      var n := new TrieNode<V>(blank);
      root := n;
      nodes := map[[] := n];
      Repr := {n, n.child};
    }

    // Walk down; null when the path ends before the name does.
    method Locate(name: Name) returns (n: TrieNode?<V>)
      requires Valid()
      ensures if name in nodes then n == nodes[name] else n == null
      ensures At(name) == if n == null then blank else n.value
    {
      var curr := root;
      var i := 0;
      assert name[..0] == [];
      while i < |name|
        invariant 0 <= i <= |name|
        invariant name[..i] in nodes && curr == nodes[name[..i]]
      {
        assert Linked(nodes, name[..i], curr.child[name[i]], name[i]);
        assert name[..i] + [name[i]] == name[..i + 1];
        if curr.child[name[i]] == null {
          return null;
        }
        curr := curr.child[name[i]];
        i := i + 1;
      }
      assert name[..|name|] == name;
      n := curr;
    }

    // Walk down, creating the nodes that are missing; no value changes.
    method LocateOrCreate(name: Name) returns (n: TrieNode<V>)
      requires Valid()
      modifies this, Repr
      ensures Valid() && fresh(Repr - old(Repr)) && old(Repr) <= Repr
      ensures name in nodes && n == nodes[name] && n.value == At(name)
      ensures forall p :: At(p) == old(At(p))
    {
      var curr := root;
      var i := 0;
      assert name[..0] == [];
      while i < |name|
        invariant 0 <= i <= |name|
        invariant Valid() && fresh(Repr - old(Repr)) && old(Repr) <= Repr
        invariant name[..i] in nodes && curr == nodes[name[..i]]
        invariant forall p :: At(p) == old(At(p))
      {
        assert Linked(nodes, name[..i], curr.child[name[i]], name[i]);
        assert name[..i] + [name[i]] == name[..i + 1];
        if curr.child[name[i]] == null {
          Grow(name[..i], name[i], curr);
        }
        assert Linked(nodes, name[..i], curr.child[name[i]], name[i]);
        curr := curr.child[name[i]];
        i := i + 1;
      }
      assert name[..|name|] == name;
      n := curr;
    }

    // The write to curr->user, or to the fields of a file node, at the end of a walk.
    method SetValue(n: TrieNode<V>, ghost name: Name, v: V)
      requires Valid() && name in nodes && nodes[name] == n
      modifies n`value
      ensures Valid()
      ensures At(name) == v && forall p :: p != name ==> At(p) == old(At(p))
    {
      n.value := v;
    }

    // Hang a fresh node under path p at byte b.
    method Grow(ghost p: Name, b: byte, curr: TrieNode<V>)
      requires Valid() && p in nodes && nodes[p] == curr && p + [b] !in nodes
      modifies this, Repr
      ensures Valid() && fresh(Repr - old(Repr)) && old(Repr) <= Repr
      ensures nodes.Keys == old(nodes.Keys) + {p + [b]}
      ensures forall q :: q in old(nodes) ==> nodes[q] == old(nodes[q])
      ensures forall q :: At(q) == old(At(q))
    {
      ghost var path := p + [b];
      var c := new TrieNode<V>(blank);
      curr.child[b] := c;
      nodes := nodes[path := c];
      Repr := Repr + {c, c.child};
      LinksAfterGrow(old(nodes), p, b, c);
      forall q, x: byte | q in nodes ensures Linked(nodes, q, nodes[q].child[x], x) {
        if q == path {
          assert q + [x] !in nodes;
        } else {
          assert old(Linked(nodes, q, nodes[q].child[x], x));
          assert q + [x] == path <==> q == p && x == b;
        }
      }
    }

    // Adding one edge keeps paths prefix-closed, and nothing hangs below the new node.
    static lemma LinksAfterGrow(before: map<Name, TrieNode<V>>, p: Name, b: byte, c: TrieNode<V>)
      requires PrefixClosed(before) && p in before && p + [b] !in before
      ensures PrefixClosed(before[p + [b] := c])
      ensures forall x: byte :: p + [b] + [x] !in before[p + [b] := c]
      ensures forall q: Name, x: byte :: q + [x] == p + [b] <==> q == p && x == b
    {
      var path := p + [b];
      forall q, k | q in before[path := c] && 0 <= k <= |q| ensures q[..k] in before[path := c] {
        if q == path {
          if k == |q| { assert q[..k] == path; } else { assert q[..k] == p[..k]; }
        }
      }
      forall x: byte ensures path + [x] !in before[path := c] {
        assert (path + [x])[..|path|] == path;
      }
      forall q: Name, x: byte ensures q + [x] == path <==> q == p && x == b {
        if q + [x] == path {
          assert q == (q + [x])[..|q + [x]| - 1] == p;
          assert x == (q + [x])[|q|] == b;
        }
      }
    }
  }
}
