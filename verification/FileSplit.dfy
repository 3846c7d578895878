// Splitting a file into chunks on the registering client (clientlib/commands/regfile.c),
// and putting it together again as the search reply tells its reader to.
module FileSplit {
  import opened Basics

  // C division: towards zero.
  function Quotient(a: int, b: int): int
    requires b != 0
  {
    if a >= 0 && b > 0 then a / b
    else if a >= 0 then -(a / -b)
    else if b > 0 then -(-a / b)
    else -a / -b
  }

  const TWO_63 := 0x8000_0000_0000_0000

  type Long = n: int | -TWO_63 <= n < TWO_63

  // What malloc makes of a signed size.
  function Unsigned(n: Long): nat
  {
    if n >= 0 then n else n + TWO_64
  }

  // Whatever strtol made of the answer; zero and a range error select the default.
  function ChunkSize(parsed: Long, rangeError: bool): (size: Long)
    ensures size != 0
  {
    if rangeError || parsed == 0 then 1024 else parsed
  }

  function ChunkCount(bytes: nat, chunkSize: int): int
    requires chunkSize != 0
  {
    var n := Quotient(bytes, chunkSize);
    if n * chunkSize < bytes then n + 1 else n
  }

  // The n-th piece: what one fread of chunkSize bytes returns.
  function Piece(file: seq<byte>, chunkSize: nat, i: nat): seq<byte>
  {
    var from := Least(i * chunkSize, |file|);
    file[from..Least(from + chunkSize, |file|)]
  }

  // The writing loop, where malloc grants sizes up to `limit`. None stands for a round that
  // reads into an allocation that was refused; a negative size is refused as an enormous one.
  method SplitFile(file: seq<byte>, chunkSize: Long, limit: nat) returns (result: Option<seq<seq<byte>>>)
    requires file != [] && chunkSize != 0 && limit < TWO_63
    ensures result == None <==> ChunkCount(|file|, chunkSize) > 0 && Unsigned(chunkSize) > limit
    ensures result.Some? && chunkSize > 0 ==>
      && |result.value| == ChunkCount(|file|, chunkSize)
      && forall i :: 0 <= i < |result.value| ==> result.value[i] == Piece(file, chunkSize, i)
    ensures result.Some? && chunkSize < 0 ==> result.value == []
  {
    hide ChunkCount;
    CountRange(|file|, chunkSize);
    var nchunks := ChunkCount(|file|, chunkSize);
    var granted := Unsigned(chunkSize) <= limit;
    var pieces := [];
    var position: nat := 0;
    var i := 0;
    while i < nchunks
      invariant 0 <= i && |pieces| == i && (i > 0 ==> granted)
      invariant if chunkSize > 0 then i <= nchunks else i == 0
      invariant chunkSize > 0 ==> position == Least(i * chunkSize, |file|)
      invariant chunkSize > 0 ==> forall k :: 0 <= k < i ==> pieces[k] == Piece(file, chunkSize, k)
    {
      if !granted {
        return None;
      }
      NextPosition(i, chunkSize, |file|);
      var end := Least(position + chunkSize, |file|);
      pieces := pieces + [file[position..end]];
      position := end;
      i := i + 1;
    }
    result := Some(pieces);
  }

  lemma NextPosition(i: nat, chunkSize: nat, bytes: nat)
    ensures Least(Least(i * chunkSize, bytes) + chunkSize, bytes) == Least((i + 1) * chunkSize, bytes)
  {
  }

  lemma CountRange(bytes: nat, chunkSize: int)
    requires bytes > 0 && chunkSize != 0
    ensures var n := ChunkCount(bytes, chunkSize);
      if chunkSize > 0 then (n - 1) * chunkSize < bytes <= n * chunkSize && n > 0
      else if -chunkSize <= bytes then n <= 0
      else n == 1
  {
    if chunkSize > 0 {
      CountUp(bytes, chunkSize);
    } else {
      CountDown(bytes, -chunkSize);
    }
  }

  lemma CountUp(bytes: nat, size: int)
    requires bytes > 0 && size > 0
    ensures var n := ChunkCount(bytes, size); (n - 1) * size < bytes <= n * size && n > 0
  {
    var q := bytes / size;
    assert (q + 1) * size == q * size + size;
    assert (q - 1) * size == q * size - size;
  }

  lemma CountDown(bytes: nat, size: int)
    requires bytes > 0 && size > 0
    ensures var n := ChunkCount(bytes, -size); if size <= bytes then n <= 0 else n == 1
  {
    var q := bytes / size;
    QuotientBounds(bytes, size, q, bytes % size);
    assert -q * -size == q * size;
    assert Quotient(bytes, -size) == -q;
  }

  lemma QuotientBounds(a: int, d: int, q: int, r: int)
    requires a == q * d + r && 0 <= r < d && 0 <= a
    ensures 0 <= q && q * d <= a
    ensures d <= a ==> q >= 1
    ensures a < d ==> q == 0
  {
    if q < 0 {
      MultiplyMonotone(q, -1, d);
    } else if q > 0 {
      MultiplyMonotone(1, q, d);
    }
  }

  // The number of pieces is the file's size over the chunk size, rounded up: every piece but
  // the last is full, and the last is not empty.
  lemma PiecesFull(file: seq<byte>, chunkSize: nat, i: nat)
    requires file != [] && chunkSize > 0 && i < ChunkCount(|file|, chunkSize)
    ensures i + 1 < ChunkCount(|file|, chunkSize) ==> |Piece(file, chunkSize, i)| == chunkSize
    ensures 0 < |Piece(file, chunkSize, i)| <= chunkSize
  {
    var n := ChunkCount(|file|, chunkSize);
    CountRange(|file|, chunkSize);
    MultiplyMonotone(i, n - 1, chunkSize);
    if i + 1 < n {
      MultiplyMonotone(i + 1, n - 1, chunkSize);
      assert (i + 1) * chunkSize == i * chunkSize + chunkSize;
    }
  }

  // cat {0..n-1}.
  function PiecesUpTo(file: seq<byte>, chunkSize: nat, n: nat): (ps: seq<seq<byte>>)
    ensures |ps| == n && forall i :: 0 <= i < n ==> ps[i] == Piece(file, chunkSize, i)
  {
    seq(n, i requires 0 <= i < n => Piece(file, chunkSize, i))
  }

  lemma {:induction false} PiecesJoin(file: seq<byte>, chunkSize: nat, n: nat)
    ensures Flatten(PiecesUpTo(file, chunkSize, n)) == file[..Least(n * chunkSize, |file|)]
  {
    if n == 0 {
      assert PiecesUpTo(file, chunkSize, 0) == [];
    } else {
      PiecesJoin(file, chunkSize, n - 1);
      hide Piece, Least;
      var last := Piece(file, chunkSize, n - 1);
      assert PiecesUpTo(file, chunkSize, n) == PiecesUpTo(file, chunkSize, n - 1) + [last];
      FlattenAppend(PiecesUpTo(file, chunkSize, n - 1), [last]);
      assert Flatten([last]) == last + Flatten([last][1..]) == last;
      NextPiece(file, chunkSize, n - 1);
    }
  }

  lemma NextPiece(file: seq<byte>, chunkSize: nat, i: nat)
    ensures Least(i * chunkSize, |file|) <= |file| && Least((i + 1) * chunkSize, |file|) <= |file|
    ensures file[..Least(i * chunkSize, |file|)] + Piece(file, chunkSize, i)
         == file[..Least((i + 1) * chunkSize, |file|)]
  {
  }

  // The file's size over the chunk size, rounded up, is the number of pieces; all of them are
  // full but the last, which is not empty.
  predicate SplitInto(file: seq<byte>, pieces: seq<seq<byte>>, size: int)
  {
    && (|pieces| - 1) * size < |file| <= |pieces| * size
    && (forall i :: 0 <= i < |pieces| ==> 0 < |pieces[i]| <= size)
    && (forall i :: 0 <= i < |pieces| - 1 ==> |pieces[i]| == size)
  }

  // Registering a file, from what strtol made of the answer about the chunk size, where
  // malloc grants sizes up to `limit` and the default is among them. Concatenating the pieces
  // in order gives the file back exactly when the number was out of range, and so replaced, or
  // is between zero and the limit. The code refuses no size: a negative one no larger than the
  // file writes no piece at all, and any other makes the first round fail.
  method SplitAndMerge(file: seq<byte>, parsed: Long, rangeError: bool, limit: nat)
    returns (result: Option<seq<seq<byte>>>, merged: Option<seq<byte>>)
    requires file != [] && 1024 <= limit < TWO_63
    ensures merged == if result.Some? then Some(Flatten(result.value)) else None
    ensures merged == Some(file) <==> rangeError || 0 <= parsed <= limit
    ensures result == None <==> !rangeError && (parsed > limit || parsed < -|file|)
    ensures !rangeError && 0 < parsed <= limit ==> SplitInto(file, result.value, parsed)
    ensures rangeError || parsed == 0 ==> SplitInto(file, result.value, 1024)
  {
    var chunkSize := ChunkSize(parsed, rangeError);
    CountRange(|file|, chunkSize);
    result := SplitFile(file, chunkSize, limit);
    merged := if result.Some? then Some(Flatten(result.value)) else None;
    if result.Some? && chunkSize > 0 {
      var pieces := result.value;
      PiecesJoin(file, chunkSize, |pieces|);
      assert pieces == PiecesUpTo(file, chunkSize, |pieces|);
      assert file[..|file|] == file;
      forall i | 0 <= i < |pieces|
        ensures 0 < |pieces[i]| <= chunkSize && (i < |pieces| - 1 ==> |pieces[i]| == chunkSize)
      {
        PiecesFull(file, chunkSize, i);
      }
    }
  }
}
