// lib/file.c: the trie of file records, the global chunk counter, and the chunk ids that
// each connection collects.
module FileIndex {
  import opened Basics
  import opened Tries
  import opened FileTable
  import opened Sessions
  import opened Entities

  class FileDb {
    const root: Trie<FileRec>
    var nextChunkId: uint32           // global_chunk_id
    ghost var table: map<Name, FileRec>

    // The trie is the table: a name is registered when its node has a positive count, so a
    // path that is only a prefix of registered names is not.
    ghost predicate Valid()
      reads this, root, root.Repr
    {
      && this !in root.Repr
      && root.Valid() && root.blank == FileRec(0, 0)
      && forall name :: if name in table then root.At(name) == table[name] && table[name].chunks > 0
                        else root.At(name).chunks == 0
    }

    ghost function Files(): Files
      reads this
    {
      FileTable.Files(table, nextChunkId)
    }

    constructor ()
      ensures Valid() && fresh(root) && fresh(root.Repr)
      ensures Files() == NO_FILES
    {
      root := new Trie<FileRec>(FileRec(0, 0));
      nextChunkId := 0;
      table := map[];
    }

    method FindFile(filename: Name) returns (r: Option<FileRec>)
      requires Valid()
      ensures r == Find(Files(), filename)
    {
      var node := root.Locate(filename);
      if node == null { return None; }
      r := if node.value.chunks > 0 then Some(node.value) else None;
    }

    method AddFile(filename: Name, chunks: uint32) returns (r: Option<FileRec>)
      requires Valid()
      modifies this, root, root.Repr
      ensures Valid() && fresh(root.Repr - old(root.Repr))
      ensures (Files(), r) == Add(old(Files()), filename, chunks)
    {
      hide Trie.Linked, Trie.PrefixClosed, Trie.Valid, Trie.At;
      var node := root.LocateOrCreate(filename);
      if node.value.chunks > 0 { return None; }
      var rec := FileRec(nextChunkId, chunks);
      root.SetValue(node, filename, rec);
      if chunks > 0 { table := table[filename := rec]; }
      nextChunkId := (nextChunkId + chunks) % TWO_32;
      r := Some(rec);
    }
  }

  method RegAllFileChunk(client: Client, rec: FileRec)
    modifies client`chunkIds
    ensures client.chunkIds == WithAllChunks(old(client.chunkIds), rec)
  {
    var ids := client.chunkIds;
    var j := 0;
    while j < rec.chunks
      invariant 0 <= j <= rec.chunks
      invariant ids == WithAllChunks(client.chunkIds, rec)[..|client.chunkIds| + j]
    {
      ids := ids + [ChunkId(rec, j)];
      j := j + 1;
    }
    client.chunkIds := ids;
  }

  method RegFileChunk(client: Client, rec: FileRec, chunks: seq<uint32>)
    modifies client`chunkIds
    ensures client.chunkIds == WithChunks(old(client.chunkIds), rec, chunks)
  {
    var ids := client.chunkIds;
    var j := 0;
    while j < |chunks|
      invariant 0 <= j <= |chunks|
      invariant ids == WithChunks(client.chunkIds, rec, chunks)[..|client.chunkIds| + j]
    {
      ids := ids + [ChunkId(rec, chunks[j])];
      j := j + 1;
    }
    client.chunkIds := ids;
  }

  // The positions at which a mask is set.
  ghost function Marked(mask: seq<bool>): set<nat>
  {
    set i: nat | 0 <= i < |mask| && mask[i]
  }

  // Marks in haschunkmask what the client holds of the file, and says how it compares with
  // wantedchunkmask.
  method ClientHasFileChunks(client: Client, rec: FileRec, wanted: array<bool>, has: array<bool>) returns (ret: nat)
    requires wanted != has && wanted.Length == has.Length == rec.chunks
    modifies has
    ensures Marked(has[..]) == old(Marked(has[..])) + HeldChunks(client.chunkIds, rec)
    ensures ret == HoldingLevel(client.chunkIds, rec, Marked(wanted[..]))
  {
    ret := 0;
    var ids := client.chunkIds;
    var sid := rec.sid;
    var eid := (sid + rec.chunks) % TWO_32;
    var i := 0;
    assert HeldChunks([], rec) == {};
    while i < |ids|
      invariant 0 <= i <= |ids|
      invariant Marked(has[..]) == old(Marked(has[..])) + HeldChunks(ids[..i], rec)
      invariant ret == HoldingLevel(ids[..i], rec, Marked(wanted[..]))
    {
      HeldNext(ids, i, rec);
      if ids[i] >= sid && ids[i] < eid {
        ghost var before := has[..];
        has[ids[i] - sid] := true;
        MarkedSet(before, has[..], ids[i] - sid);
        if ret == 0 { ret := 1; }
        if wanted[ids[i] - sid] { ret := 2; }
        LevelNext(HeldChunks(ids[..i], rec), Marked(wanted[..]), ids[i] - sid);
        assert wanted[ids[i] - sid] <==> ids[i] - sid in Marked(wanted[..]);
      }
      i := i + 1;
    }
    assert ids[..|ids|] == ids;
  }

  lemma HeldNext(ids: seq<uint32>, i: nat, rec: FileRec)
    requires i < |ids|
    ensures HeldChunks(ids[..i + 1], rec)
      == HeldChunks(ids[..i], rec) +
         (if rec.sid <= ids[i] < (rec.sid + rec.chunks) % TWO_32 then {ids[i] - rec.sid} else {})
  {
    assert ids[..i + 1] == ids[..i] + [ids[i]];
    var eid := (rec.sid + rec.chunks) % TWO_32;
    var l, r := HeldChunks(ids[..i + 1], rec), HeldChunks(ids[..i], rec);
    forall x: nat ensures x in l <==> x in r || (x == ids[i] - rec.sid && ids[i] < eid) {
      assert x + rec.sid in ids[..i + 1] <==> x + rec.sid in ids[..i] || x + rec.sid == ids[i];
    }
  }

  lemma MarkedSet(before: seq<bool>, after: seq<bool>, k: nat)
    requires k < |before| && after == before[k := true]
    ensures Marked(after) == Marked(before) + {k}
  {
  }

  lemma LevelNext(held: set<nat>, wanted: set<nat>, x: nat)
    ensures LevelOf(held + {x}, wanted)
      == if x in wanted then 2 else if LevelOf(held, wanted) == 0 then 1 else LevelOf(held, wanted)
  {
    assert x in held + {x};
    if x in wanted {
      assert x in (held + {x}) * wanted;
    } else {
      assert (held + {x}) * wanted == held * wanted;
    }
  }
}
