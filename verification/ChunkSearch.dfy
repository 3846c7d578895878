// Search answers from flat arrays of chunk ids; this file proves the answers right
// against a ledger of who registered which chunk of which file.
module ChunkSearch {
  import opened Basics
  import opened FileTable
  import opened Sessions
  import opened SessionInvariant

  // Chunk `index` of a named file.
  datatype Piece = Piece(file: Name, index: nat)

  // For each connection, the chunks its peer has registered on it. Written from the
  // requests alone, without ids.
  type Ledger = seq<set<Piece>>

  function AllPieces(file: Name, chunks: nat): set<Piece>
  {
    set i | 0 <= i < chunks :: Piece(file, i)
  }

  function SomePieces(file: Name, indices: seq<uint32>): set<Piece>
  {
    set x | x in indices :: Piece(file, x)
  }

  function LedgerStep(led: Ledger, s: State, e: Event): (led': Ledger)
    requires Scoped(s) && InTable(s, e) && |led| == |s.conns|
    ensures |led'| == |Step(s, e).conns|
  {
    match e
    case Accept(fd) =>
      var j := SlotOf(s.conns, fd);
      if j < |led| then led[j := {}] else led + [{}]
    case Command(j, RegFile(file, chunks), now) =>
      if ConnOnline(s, j, now) && file !in s.files.table then led[j := led[j] + AllPieces(file, chunks)] else led
    case Command(j, RegChunk(file, indices), now) =>
      if ConnOnline(s, j, now) && file in s.files.table then led[j := led[j] + SomePieces(file, indices)] else led
    case _ => led
  }

  // The id array shows the piece, as search reads it.
  predicate Shows(files: Files, ids: seq<uint32>, p: Piece)
  {
    p.file in files.table && p.index < files.table[p.file].chunks && files.table[p.file].sid + p.index in ids
  }

  // A connection's id array and its ledger entry say the same.
  ghost predicate Agree(files: Files, ids: seq<uint32>, pieces: set<Piece>)
  {
    && (forall id <- ids :: id < files.next)
    && (forall p :: Shows(files, ids, p) <==> p in pieces)
  }

  ghost predicate Indexed(s: State, led: Ledger)
  {
    && Tiled(s.files)
    && |led| == |s.conns|
    && forall j :: 0 <= j < |led| ==> Agree(s.files, s.conns[j].chunkIds, led[j])
  }

  // The chunk counter does not wrap, and a chunk index is below its file's count. The code
  // checks neither.
  predicate FilesGuard(s: State, e: Event)
    requires Scoped(s) && InTable(s, e)
  {
    match e
    case Command(j, RegFile(file, chunks), now) =>
      ConnOnline(s, j, now) ==> Fits(s.files, file, chunks)
    case Command(j, RegChunk(file, indices), now) =>
      ConnOnline(s, j, now) && file in s.files.table ==> forall x <- indices :: x < s.files.table[file].chunks
    case _ => true
  }

  // ------------------------------------------------------- one connection

  lemma WithAllChunksElements(ids: seq<uint32>, rec: FileRec)
    requires rec.sid + rec.chunks <= TWO_32
    ensures forall id :: id in WithAllChunks(ids, rec) <==> id in ids || rec.sid <= id < rec.sid + rec.chunks
  {
    var w := WithAllChunks(ids, rec);
    forall id ensures id in w <==> id in ids || rec.sid <= id < rec.sid + rec.chunks {
      if id in ids {
        var k :| 0 <= k < |ids| && ids[k] == id;
        assert w[k] == id;
      } else if rec.sid <= id < rec.sid + rec.chunks {
        assert w[|ids| + (id - rec.sid)] == id;
      }
    }
  }

  lemma WithChunksElements(ids: seq<uint32>, rec: FileRec, indices: seq<uint32>)
    ensures var w := WithChunks(ids, rec, indices);
      && (forall id :: id in ids ==> id in w)
      && (forall x :: x in indices ==> ChunkId(rec, x) in w)
      && (forall id :: id in w ==> id in ids || exists x :: x in indices && id == ChunkId(rec, x))
  {
    hide ChunkId;
    var w := WithChunks(ids, rec, indices);
    forall id | id in ids ensures id in w {
      var k :| 0 <= k < |ids| && ids[k] == id;
      assert w[k] == id;
    }
    forall x | x in indices ensures ChunkId(rec, x) in w {
      var k :| 0 <= k < |indices| && indices[k] == x;
      assert w[|ids| + k] == ChunkId(rec, x);
    }
    forall id | id in w && id !in ids ensures exists x :: x in indices && id == ChunkId(rec, x) {
      var k :| 0 <= k < |w| && w[k] == id;
      assert indices[k - |ids|] in indices;
    }
  }

  // An index below the count is the only one whose id belongs to its own file.
  lemma OwnChunkId(files: Files, file: Name, x: uint32)
    requires Tiled(files) && file in files.table
    ensures var rec := files.table[file];
      && (x < rec.chunks <==> Owns(files, file, ChunkId(rec, x)))
      && (x < rec.chunks ==> ChunkId(rec, x) == rec.sid + x && rec.sid + x < files.next)
  {
    var rec := files.table[file];
    if x < rec.chunks {
      assert Owns(files, file, rec.sid + x) && Owned(files, rec.sid + x);
    } else {
      var last := rec.sid + rec.chunks - 1;
      assert Owns(files, file, last) && Owned(files, last);
    }
  }

  lemma AgreeAllChunks(files: Files, ids: seq<uint32>, pieces: set<Piece>, file: Name, chunks: uint32)
    requires Tiled(files) && Agree(files, ids, pieces) && file !in files.table && files.next + chunks < TWO_32
    ensures var (files', rec) := Add(files, file, chunks);
      Agree(files', WithAllChunks(ids, rec.value), pieces + AllPieces(file, chunks))
  {
    var (files', rec) := Add(files, file, chunks);
    var w := WithAllChunks(ids, rec.value);
    WithAllChunksElements(ids, rec.value);
    forall p ensures Shows(files', w, p) <==> p in pieces + AllPieces(file, chunks) {
      assert Shows(files, ids, p) <==> p in pieces;
      if p.file in files.table && p.index < files.table[p.file].chunks {
        OwnChunkId(files, p.file, p.index);
      }
    }
  }

  // Other connections hold no id of the new interval.
  lemma AgreeNewFile(files: Files, ids: seq<uint32>, pieces: set<Piece>, file: Name, chunks: uint32)
    requires Tiled(files) && Agree(files, ids, pieces) && file !in files.table && files.next + chunks < TWO_32
    ensures Agree(Add(files, file, chunks).0, ids, pieces)
  {
  }

  // --------------------------------------------- the index that is not checked

  // What one more registered index shows: its own chunk when it is in range, and otherwise
  // whatever piece of whatever file owns the id it lands on.
  lemma ShowsAfter(files: Files, ids: seq<uint32>, file: Name, indices: seq<uint32>, p: Piece)
    requires Tiled(files) && file in files.table
    ensures var rec := files.table[file];
      Shows(files, WithChunks(ids, rec, indices), p) <==>
        || Shows(files, ids, p)
        || (p.file == file && p.index in indices && p.index < rec.chunks)
        || (exists x :: x in indices && x >= rec.chunks && Owns(files, p.file, ChunkId(rec, x))
              && ChunkId(rec, x) == files.table[p.file].sid + p.index)
  {
    hide ChunkId, Tiled;
    var rec := files.table[file];
    WithChunksElements(ids, rec, indices);
    if p.file in files.table && p.index < files.table[p.file].chunks {
      var id := files.table[p.file].sid + p.index;
      if id in WithChunks(ids, rec, indices) && id !in ids {
        var x :| x in indices && id == ChunkId(rec, x);
        OwnChunkId(files, file, x);
        UniqueOwner(files, p.file, file, id);
      }
      if p.file == file && p.index in indices {
        OwnChunkId(files, file, p.index);
      }
    }
  }

  lemma UniqueOwner(files: Files, a: Name, b: Name, id: int)
    requires Tiled(files) && Owns(files, a, id)
    ensures Owns(files, b, id) ==> a == b
    ensures 0 <= id < files.next
  {
    assert Owned(files, id);
  }

  // Every index at or above the file's count lands on an id that nobody has been given yet
  // or that the connection holds anyway.
  predicate Harmless(files: Files, ids: seq<uint32>, rec: FileRec, indices: seq<uint32>)
  {
    forall x <- indices :: x < rec.chunks || ChunkId(rec, x) >= files.next || ChunkId(rec, x) in ids
  }

  // regchunk accepts any index. It shows exactly the requested pieces of the file, besides
  // what was shown before, if and only if the out-of-range indices are harmless.
  lemma RegChunkExactIff(files: Files, ids: seq<uint32>, file: Name, indices: seq<uint32>)
    requires Tiled(files) && file in files.table
    ensures var rec := files.table[file];
      (forall p :: Shows(files, WithChunks(ids, rec, indices), p)
        <==> Shows(files, ids, p) || (p.file == file && p.index in indices && p.index < rec.chunks))
      <==> Harmless(files, ids, rec, indices)
  {
    hide ChunkId, WithChunks;
    var rec := files.table[file];
    if Harmless(files, ids, rec, indices) {
      forall p ensures Shows(files, WithChunks(ids, rec, indices), p)
        <==> Shows(files, ids, p) || (p.file == file && p.index in indices && p.index < rec.chunks)
      {
        ShowsAfter(files, ids, file, indices, p);
        if x :| x in indices && x >= rec.chunks && Owns(files, p.file, ChunkId(rec, x))
              && ChunkId(rec, x) == files.table[p.file].sid + p.index {
          UniqueOwner(files, p.file, p.file, ChunkId(rec, x));
        }
      }
    } else {
      var x :| x in indices && !(x < rec.chunks || ChunkId(rec, x) >= files.next || ChunkId(rec, x) in ids);
      var id := ChunkId(rec, x);
      assert Owned(files, id);
      var name :| Owns(files, name, id);
      var p := Piece(name, id - files.table[name].sid);
      ShowsAfter(files, ids, file, indices, p);
      OwnChunkId(files, file, x);
      assert Shows(files, WithChunks(ids, rec, indices), p) && !Shows(files, ids, p) && name != file;
    }
  }

  // A name longer than every one in the set.
  lemma {:induction false} LongerName(names: set<Name>) returns (name: Name)
    ensures forall n <- names :: |n| < |name|
  {
    if names == {} {
      name := [];
    } else {
      var n :| n in names;
      var longer := LongerName(names - {n});
      name := if |n| < |longer| then longer else n + [0];
    }
  }

  // The last 32-bit id is never handed out while the counter does not wrap.
  const NO_ID := TWO_32 - 1

  // Every index at or above the file's count lands on an id that the connection holds
  // anyway, or on the one that no file ever gets.
  predicate HarmlessForGood(ids: seq<uint32>, rec: FileRec, indices: seq<uint32>)
  {
    forall x <- indices :: x < rec.chunks || ChunkId(rec, x) in ids || ChunkId(rec, x) == NO_ID
  }

  // After the registrations in reqs, the indices show the requested pieces of the file and
  // nothing else that was not shown without them.
  ghost predicate ExactAfter(files: Files, ids: seq<uint32>, file: Name, indices: seq<uint32>, reqs: seq<Offer>)
    requires file in files.table
  {
    var rec := files.table[file];
    var later := AddAll(files, reqs);
    forall p :: Shows(later, WithChunks(ids, rec, indices), p)
      <==> Shows(later, ids, p) || (p.file == file && p.index in indices && p.index < rec.chunks)
  }

  // regchunk stays exact through whatever files are registered later if and only if its
  // out-of-range indices are harmless for good.
  lemma RegChunkDurableIff(files: Files, ids: seq<uint32>, file: Name, indices: seq<uint32>)
    requires Tiled(files) && file in files.table
    ensures (forall reqs :: AllFit(files, reqs) ==> ExactAfter(files, ids, file, indices, reqs))
      <==> HarmlessForGood(ids, files.table[file], indices)
  {
    hide ChunkId, WithChunks, ExactAfter, Tiled, AllFit, AddAll;
    var rec := files.table[file];
    if HarmlessForGood(ids, rec, indices) {
      forall reqs | AllFit(files, reqs) ensures ExactAfter(files, ids, file, indices, reqs) {
        HarmlessStaysExact(files, ids, file, indices, reqs);
      }
    } else {
      var x :| x in indices && !(x < rec.chunks || ChunkId(rec, x) in ids || ChunkId(rec, x) == NO_ID);
      var reqs := HarmShows(files, ids, file, indices, x);
      assert AllFit(files, reqs) && !ExactAfter(files, ids, file, indices, reqs);
    }
  }

  lemma HarmlessStaysExact(files: Files, ids: seq<uint32>, file: Name, indices: seq<uint32>, reqs: seq<Offer>)
    requires Tiled(files) && file in files.table && AllFit(files, reqs)
    requires HarmlessForGood(ids, files.table[file], indices)
    ensures ExactAfter(files, ids, file, indices, reqs)
  {
    hide ChunkId, WithChunks, Tiled, AllFit, AddAll;
    var rec := files.table[file];
    var later := AddAll(files, reqs);
    AddAllTilesIff(files, reqs);
    IntervalsNeverMove(files, reqs, file);
    RegChunkExactIff(later, ids, file, indices);
    assert Harmless(later, ids, rec, indices) by {
      assert later.next <= NO_ID;
    }
  }

  // An index that is not harmless for good shows a piece of some file: of the one that owns
  // its id already, or of a new one that is given it.
  lemma HarmShows(files: Files, ids: seq<uint32>, file: Name, indices: seq<uint32>, x: uint32)
    returns (reqs: seq<Offer>)
    requires Tiled(files) && file in files.table
    requires var rec := files.table[file];
      x in indices && x >= rec.chunks && ChunkId(rec, x) !in ids && ChunkId(rec, x) != NO_ID
    ensures AllFit(files, reqs) && !ExactAfter(files, ids, file, indices, reqs)
  {
    hide ChunkId, WithChunks, Tiled;
    var rec := files.table[file];
    var id := ChunkId(rec, x);
    reqs := [];
    if id >= files.next {
      var name := LongerName(files.table.Keys);
      reqs := [Offer(name, id - files.next + 1)];
    }
    assert reqs != [] ==> reqs[1..] == [];
    assert AllFit(files, reqs);
    var later := AddAll(files, reqs);
    AddAllTilesIff(files, reqs);
    IntervalsNeverMove(files, reqs, file);
    assert id < later.next;
    RegChunkExactIff(later, ids, file, indices);
    assert !Harmless(later, ids, rec, indices);
  }

  lemma AgreeSomeChunks(files: Files, ids: seq<uint32>, pieces: set<Piece>, file: Name, indices: seq<uint32>)
    requires Tiled(files) && Agree(files, ids, pieces) && file in files.table
    requires forall x <- indices :: x < files.table[file].chunks
    ensures Agree(files, WithChunks(ids, files.table[file], indices), pieces + SomePieces(file, indices))
  {
    hide ChunkId, WithChunks, Tiled;
    var rec := files.table[file];
    WithChunksElements(ids, rec, indices);
    forall x | x in indices ensures ChunkId(rec, x) < files.next {
      OwnChunkId(files, file, x);
    }
    RegChunkExactIff(files, ids, file, indices);
    forall p ensures p in SomePieces(file, indices) <==> p.file == file && p.index in indices {
      if p.file == file && p.index in indices { assert p == Piece(file, p.index); }
    }
  }

  // ------------------------------------------------------------------ runs

  ghost predicate SameChunks(s: State, t: State)
  {
    && t.files == s.files && |t.conns| == |s.conns|
    && forall j :: 0 <= j < |s.conns| ==> t.conns[j].chunkIds == s.conns[j].chunkIds
  }

  predicate Registers(request: Request)
  {
    request.RegFile? || request.RegChunk?
  }

  lemma OtherCommandChunks(s: State, j: nat, request: Request, now: int)
    requires Scoped(s) && j < |s.conns|
    requires !Registers(request) || !ConnOnline(s, j, now)
    ensures SameChunks(s, RunCommand(s, j, request, now).0)
  {
    match request
    case Login(username, password) => LoginEffect(s, j, username, password, now);
    case Broadcast(text) =>
      if ConnOnline(s, j, now) {
        var me := s.conns[j].user.value;
        FanOutMail(s, me, Chat(me, text), now, |s.users|);
      }
    case Logout =>
      LogoutEffect(s, s.conns[j].user, now);
    case _ =>
  }

  lemma RegisterIndexed(s: State, led: Ledger, j: nat, request: Request, now: int)
    requires Scoped(s) && j < |s.conns| && Indexed(s, led) && Registers(request) && ConnOnline(s, j, now)
    requires FilesGuard(s, Command(j, request, now))
    ensures Indexed(RunCommand(s, j, request, now).0, LedgerStep(led, s, Command(j, request, now)))
  {
    hide Tiled, Agree;
    var t := RunCommand(s, j, request, now).0;
    match request
    case RegFile(file, chunks) =>
      if file !in s.files.table {
        FittingAddTiles(s.files, file, chunks);
        AgreeAllChunks(s.files, s.conns[j].chunkIds, led[j], file, chunks);
        forall i | 0 <= i < |led| && i != j ensures Agree(t.files, t.conns[i].chunkIds, led[i]) {
          AgreeNewFile(s.files, s.conns[i].chunkIds, led[i], file, chunks);
        }
      }
    case RegChunk(file, indices) =>
      if file in s.files.table {
        AgreeSomeChunks(s.files, s.conns[j].chunkIds, led[j], file, indices);
      }
  }

  lemma NewConnAgrees(files: Files)
    ensures Agree(files, [], {})
  {
  }

  lemma StepIndexed(s: State, led: Ledger, e: Event)
    requires Scoped(s) && InTable(s, e) && Indexed(s, led) && FilesGuard(s, e)
    ensures Indexed(Step(s, e), LedgerStep(led, s, e))
  {
    hide Agree, Tiled, RunCommand;
    match e
    case Accept(fd) =>
      NewConnAgrees(s.files);
    case Disconnect(j, now) =>
      LogoutEffect(s, s.conns[j].user, now);
    case Expire(j, now) =>
      LogoutEffect(s, s.conns[j].user, now);
    case Writable(_, _, _, _) =>
    case Command(j, request, now) =>
      CommandTail(s, j, request, now);
      var t := RunCommand(s, j, request, now).0;
      if Registers(request) && ConnOnline(s, j, now) {
        RegisterIndexed(s, led, j, request, now);
      } else {
        OtherCommandChunks(s, j, request, now);
      }
  }

  ghost predicate FilesGuarded(s: State, es: seq<Event>)
    requires Scoped(s)
    ensures FilesGuarded(s, es) ==> Possible(s, es)
    decreases |es|
  {
    es == [] || (InTable(s, es[0]) && FilesGuard(s, es[0]) && FilesGuarded(Step(s, es[0]), es[1..]))
  }

  function LedgerRun(led: Ledger, s: State, es: seq<Event>): (r: Ledger)
    requires Scoped(s) && Possible(s, es) && |led| == |s.conns|
    ensures |r| == |Run(s, es).conns|
    decreases |es|
  {
    if es == [] then led else LedgerRun(LedgerStep(led, s, es[0]), Step(s, es[0]), es[1..])
  }

  // Over any run that meets the file guards; the sessions are not asked to be in order.
  lemma {:induction false} RunIndexed(s: State, led: Ledger, es: seq<Event>)
    requires Scoped(s) && FilesGuarded(s, es) && Indexed(s, led)
    ensures Indexed(Run(s, es), LedgerRun(led, s, es))
    decreases |es|
  {
    hide Step, LedgerStep, FilesGuard, Indexed;
    if es != [] {
      StepIndexed(s, led, es[0]);
      IndexedLength(s, led);
      RunIndexed(Step(s, es[0]), LedgerStep(led, s, es[0]), es[1..]);
    }
  }

  lemma IndexedLength(s: State, led: Ledger)
    requires Indexed(s, led)
    ensures |led| == |s.conns|
  {
  }

  // ---------------------------------------------------------------- search

  // The chunks of a file on one connection, by the ledger.
  function LedgerChunks(pieces: set<Piece>, file: Name, chunks: nat): set<nat>
  {
    set i: nat | 0 <= i < chunks && Piece(file, i) in pieces
  }

  lemma HeldIsLedger(files: Files, ids: seq<uint32>, pieces: set<Piece>, file: Name)
    requires Tiled(files) && Agree(files, ids, pieces) && file in files.table
    ensures HeldChunks(ids, files.table[file]) == LedgerChunks(pieces, file, files.table[file].chunks)
  {
    var rec := files.table[file];
    OwnChunkId(files, file, rec.chunks - 1);
    assert (rec.sid + rec.chunks) % TWO_32 == rec.sid + rec.chunks;
    forall i: nat ensures i in HeldChunks(ids, rec) <==> i in LedgerChunks(pieces, file, rec.chunks) {
      assert Shows(files, ids, Piece(file, i)) <==> Piece(file, i) in pieces;
      if i in LedgerChunks(pieces, file, rec.chunks) {
        assert rec.sid + i in ids;
      }
    }
  }

  // User i is online and its connection has registered the piece.
  predicate OnlineHolder(s: State, led: Ledger, i: nat, p: Piece, now: int)
    requires Scoped(s) && |led| == |s.conns| && i < |s.users|
  {
    Online(s, i, now) && p in led[s.users[i].client.value]
  }

  // Some user among the first k holds the piece.
  ghost predicate HeldAmong(s: State, led: Ledger, p: Piece, now: int, k: nat)
    requires Scoped(s) && |led| == |s.conns| && k <= |s.users|
  {
    exists u :: 0 <= u < k && OnlineHolder(s, led, u, p, now)
  }

  lemma {:induction false} AvailableElements(s: State, led: Ledger, file: Name, now: int, k: nat)
    requires Scoped(s) && Indexed(s, led) && file in s.files.table && k <= |s.users|
    ensures var rec := s.files.table[file];
      forall i: nat :: i in Available(s, rec, now, k) <==> i < rec.chunks && HeldAmong(s, led, Piece(file, i), now, k)
  {
    hide Tiled, Agree, HeldChunks;
    if k > 0 {
      var rec := s.files.table[file];
      AvailableElements(s, led, file, now, k - 1);
      if Online(s, k - 1, now) {
        assert s.users[k - 1].client.Some?;
        var c := s.users[k - 1].client.value;
        HeldIsLedger(s.files, s.conns[c].chunkIds, led[c], file);
      }
      forall i: nat {
        HeldAmongNext(s, led, Piece(file, i), now, k);
      }
    }
  }

  lemma HeldAmongNext(s: State, led: Ledger, p: Piece, now: int, k: nat)
    requires Scoped(s) && |led| == |s.conns| && 0 < k <= |s.users|
    ensures HeldAmong(s, led, p, now, k) <==> HeldAmong(s, led, p, now, k - 1) || OnlineHolder(s, led, k - 1, p, now)
  {
  }

  // A user is listed: it holds some chunk when none was asked for, else one that was.
  ghost predicate Matches(s: State, led: Ledger, i: nat, file: Name, indices: seq<uint32>, now: int)
    requires Scoped(s) && |led| == |s.conns| && i < |s.users|
  {
    exists x: nat :: OnlineHolder(s, led, i, Piece(file, x), now) && (indices == [] || x in indices)
  }

  lemma LevelIsMatch(s: State, led: Ledger, i: nat, file: Name, indices: seq<uint32>, now: int)
    requires Scoped(s) && Indexed(s, led) && file in s.files.table && i < |s.users| && Online(s, i, now)
    ensures var rec := s.files.table[file];
      Matches(s, led, i, file, indices, now) <==>
        HoldingLevel(IdsOf(s, i), rec, Wanted(rec, indices)) == (if indices == [] then 1 else 2)
  {
    hide Tiled;
    var rec := s.files.table[file];
    var c := s.users[i].client.value;
    HeldIsLedger(s.files, s.conns[c].chunkIds, led[c], file);
    var held := LedgerChunks(led[c], file, rec.chunks);
    var wanted := Wanted(rec, indices);
    forall x: nat ensures x in held <==> OnlineHolder(s, led, i, Piece(file, x), now) {
      assert Shows(s.files, s.conns[c].chunkIds, Piece(file, x)) <==> Piece(file, x) in led[c];
    }
    if indices == [] {
      assert wanted == {} && held * wanted == {};
      if held != {} {
        var x :| x in held;
        assert OnlineHolder(s, led, i, Piece(file, x), now);
      }
    } else {
      if held * wanted != {} {
        var x :| x in held * wanted;
        assert OnlineHolder(s, led, i, Piece(file, x), now) && x in indices;
      }
      if x: nat :| OnlineHolder(s, led, i, Piece(file, x), now) && x in indices {
        assert x in held * wanted;
      }
    }
  }

  lemma {:induction false} HoldersElements(s: State, led: Ledger, file: Name, indices: seq<uint32>, now: int, k: nat)
    requires Scoped(s) && Indexed(s, led) && file in s.files.table && k <= |s.users|
    ensures var rec := s.files.table[file];
      var list := Holders(s, rec, Wanted(rec, indices), if indices == [] then 1 else 2, now, k);
      && Increasing(list)
      && (forall i :: i in list ==> i < k)
      && (forall i :: 0 <= i < k ==> (i in list <==> Online(s, i, now) && Matches(s, led, i, file, indices, now)))
  {
    hide Indexed, HoldingLevel, Matches;
    if k > 0 {
      HoldersElements(s, led, file, indices, now, k - 1);
      IndexedLength(s, led);
      if Online(s, k - 1, now) {
        assert s.users[k - 1].client.Some?;
        LevelIsMatch(s, led, k - 1, file, indices, now);
      }
    }
  }

  // The chunks of the file that some online user's connection has registered.
  ghost function HeldOnline(s: State, led: Ledger, file: Name, chunks: nat, now: int): set<nat>
    requires Scoped(s) && |led| == |s.conns|
  {
    set x: nat | 0 <= x < chunks && HeldAmong(s, led, Piece(file, x), now, |s.users|)
  }

  // What search says of a registered file, against the ledger: how many chunks some online
  // user holds, and which online users hold a requested chunk (any chunk if none was
  // requested), in db order.
  lemma SearchExact(s: State, led: Ledger, file: Name, indices: seq<uint32>, now: int)
    requires Scoped(s) && Indexed(s, led) && file in s.files.table
    ensures var rec := s.files.table[file];
      var reply := SearchFile(s, rec, indices, now);
      && reply.total == rec.chunks
      && reply.available == |HeldOnline(s, led, file, rec.chunks, now)|
      && Increasing(reply.holders)
      && (forall i :: i in reply.holders ==> i < |s.users|)
      && (forall i :: 0 <= i < |s.users| ==> (i in reply.holders <==> Matches(s, led, i, file, indices, now)))
  {
    hide Indexed, Holders, Available;
    IndexedLength(s, led);
    var rec := s.files.table[file];
    AvailableElements(s, led, file, now, |s.users|);
    HoldersElements(s, led, file, indices, now, |s.users|);
    assert Available(s, rec, now, |s.users|) == HeldOnline(s, led, file, rec.chunks, now);
  }
}
