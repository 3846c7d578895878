// The file registry of lib/file.c as values: which names are registered, and which
// interval of chunk ids each of them was given.
module FileTable {
  import opened Basics

  // The two fields that addFile writes into a trie node.
  datatype FileRec = FileRec(sid: uint32, chunks: uint32)

  // `next` is global_chunk_id.
  datatype Files = Files(table: map<Name, FileRec>, next: uint32)

  const NO_FILES := Files(map[], 0)

  datatype Offer = Offer(name: Name, chunks: uint32)

  function Find(f: Files, name: Name): Option<FileRec>
  {
    if name in f.table then Some(f.table[name]) else None
  }

  // A registered name is refused. A count of zero is accepted but registers nothing.
  function Add(f: Files, name: Name, chunks: uint32): (Files, Option<FileRec>)
  {
    if name in f.table then (f, None)
    else
      var rec := FileRec(f.next, chunks);
      var table := if chunks > 0 then f.table[name := rec] else f.table;
      (Files(table, (f.next + chunks) % TWO_32), Some(rec))
  }

  function AddAll(f: Files, reqs: seq<Offer>): Files
    decreases |reqs|
  {
    if reqs == [] then f else AddAll(Add(f, reqs[0].name, reqs[0].chunks).0, reqs[1..])
  }

  predicate Owns(f: Files, name: Name, id: int)
  {
    name in f.table && f.table[name].sid <= id < f.table[name].sid + f.table[name].chunks
  }

  ghost predicate Owned(f: Files, id: int)
  {
    exists name :: Owns(f, name, id)
  }

  // The intervals of the registered files tile [0, next): every id below next has exactly
  // one owner, and no other id has any.
  ghost predicate Tiled(f: Files)
  {
    && (forall name :: name in f.table ==> f.table[name].chunks > 0)
    && (forall a, b, id :: Owns(f, a, id) && Owns(f, b, id) ==> a == b)
    && (forall id :: 0 <= id < f.next <==> Owned(f, id))
  }

  // The counter does not wrap: what a caller can check before the call.
  predicate Fits(f: Files, name: Name, chunks: uint32)
  {
    name in f.table || f.next + chunks < TWO_32
  }

  predicate AllFit(f: Files, reqs: seq<Offer>)
    decreases |reqs|
  {
    reqs == [] ||
    (Fits(f, reqs[0].name, reqs[0].chunks) && AllFit(Add(f, reqs[0].name, reqs[0].chunks).0, reqs[1..]))
  }

  lemma FittingAddTiles(f: Files, name: Name, chunks: uint32)
    requires Tiled(f) && Fits(f, name, chunks)
    ensures Tiled(Add(f, name, chunks).0)
  {
    var g := Add(f, name, chunks).0;
    if name !in f.table && chunks > 0 {
      forall id ensures 0 <= id < g.next <==> Owned(g, id) {
        if 0 <= id < f.next {
          assert Owned(f, id);
          var a :| Owns(f, a, id);
          assert Owns(g, a, id);
        } else if f.next <= id < g.next {
          assert Owns(g, name, id);
        } else if Owned(g, id) {
          var a :| Owns(g, a, id);
          assert a != name && Owns(f, a, id) && Owned(f, id);
        }
      }
      forall a, b, id | Owns(g, a, id) && Owns(g, b, id) ensures a == b {
        if a != name { assert Owns(f, a, id) && Owned(f, id); }
        if b != name { assert Owns(f, b, id) && Owned(f, id); }
      }
    }
  }

  // Tiling survives a registration exactly when the 32-bit counter does not wrap.
  lemma AddTilesIff(f: Files, name: Name, chunks: uint32)
    requires Tiled(f)
    ensures Tiled(Add(f, name, chunks).0) <==> Fits(f, name, chunks)
  {
    if Fits(f, name, chunks) {
      FittingAddTiles(f, name, chunks);
    } else {
      var g := Add(f, name, chunks).0;
      var last := f.next + chunks - 1;
      assert Owns(g, name, last) && Owned(g, last);
    }
  }

  // Once registered, a file keeps its interval whatever is registered later, wrapping or not.
  lemma {:induction false} IntervalsNeverMove(f: Files, reqs: seq<Offer>, name: Name)
    requires name in f.table
    ensures name in AddAll(f, reqs).table && AddAll(f, reqs).table[name] == f.table[name]
    decreases |reqs|
  {
    if reqs != [] {
      IntervalsNeverMove(Add(f, reqs[0].name, reqs[0].chunks).0, reqs[1..], name);
    }
  }

  lemma {:induction false} AddAllTilesIff(f: Files, reqs: seq<Offer>)
    requires Tiled(f)
    ensures Tiled(AddAll(f, reqs)) <==> AllFit(f, reqs)
    decreases |reqs|
  {
    if reqs != [] {
      var name, chunks := reqs[0].name, reqs[0].chunks;
      var g := Add(f, name, chunks).0;
      AddTilesIff(f, name, chunks);
      if Fits(f, name, chunks) {
        AddAllTilesIff(g, reqs[1..]);
      } else {
        // The last id of the wrapped interval is at least 2^32 - 1, which no counter exceeds.
        var end := AddAll(g, reqs[1..]);
        IntervalsNeverMove(g, reqs[1..], name);
        assert Owns(end, name, f.next + chunks - 1) && Owned(end, f.next + chunks - 1);
      }
    }
  }

  // Over whole runs from the empty registry: the intervals tile the id space exactly when
  // the counter never wrapped.
  lemma AllocatorTiles(reqs: seq<Offer>)
    ensures Tiled(AddAll(NO_FILES, reqs)) <==> AllFit(NO_FILES, reqs)
  {
    AddAllTilesIff(NO_FILES, reqs);
  }

  // A name is found after a run exactly when it was before or was ever offered with a
  // positive count, and then with the count of the first such offer.
  lemma {:induction false} FoundIffOffered(f: Files, reqs: seq<Offer>, name: Name)
    ensures name in AddAll(f, reqs).table
      <==> name in f.table || exists i :: 0 <= i < |reqs| && reqs[i].name == name && reqs[i].chunks > 0
    ensures name !in f.table && name in AddAll(f, reqs).table ==>
      exists i :: 0 <= i < |reqs| && reqs[i].name == name && reqs[i].chunks > 0
        && reqs[i].chunks == AddAll(f, reqs).table[name].chunks
        && forall j :: 0 <= j < i ==> reqs[j].name != name || reqs[j].chunks == 0
    decreases |reqs|
  {
    if reqs != [] {
      var g := Add(f, reqs[0].name, reqs[0].chunks).0;
      var tail := reqs[1..];
      FoundIffOffered(g, tail, name);
      if name !in f.table {
        if name in g.table {
          IntervalsNeverMove(g, tail, name);
          assert reqs[0].name == name && reqs[0].chunks > 0;
        } else {
          assert forall i :: 0 <= i < |tail| ==> tail[i] == reqs[i + 1];
          if name in AddAll(g, tail).table {
            var i :| 0 <= i < |tail| && tail[i].name == name && tail[i].chunks > 0
              && tail[i].chunks == AddAll(g, tail).table[name].chunks
              && forall j :: 0 <= j < i ==> tail[j].name != name || tail[j].chunks == 0;
            assert reqs[i + 1] == tail[i];
            assert forall j :: 0 <= j < i + 1 ==> reqs[j].name != name || reqs[j].chunks == 0 by {
              forall j | 0 <= j < i + 1 ensures reqs[j].name != name || reqs[j].chunks == 0 {
                if j > 0 { assert reqs[j] == tail[j - 1]; }
              }
            }
          } else {
            forall i | 0 <= i < |reqs| ensures !(reqs[i].name == name && reqs[i].chunks > 0) {
              if i > 0 { assert reqs[i] == tail[i - 1]; }
            }
          }
        }
      }
    }
  }
}
