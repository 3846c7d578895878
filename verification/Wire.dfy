// The byte format of requests and responses: the Protocol Buffers encoding
// ("Base 128 Varints", "Message Structure", "Length-Delimited Records") with the
// field layouts of proto/IMRequest.pb.c and proto/IMResponse.pb.c.
module Wire {
  import opened Basics

  // A decoded value and the number of bytes it occupied.
  datatype Decoded<+T> = Decoded(value: T, used: nat)

  // ---------------------------------------------------------------- varints

  const MAX_VARINT_BYTES := 10

  function EncodeVarint(n: nat): seq<byte>
  {
    if n < 128 then [n] else [128 + n % 128] + EncodeVarint(n / 128)
  }

  function DecodeGroups(bs: seq<byte>): (r: Option<Decoded<nat>>)
    ensures r.Some? ==> 1 <= r.value.used <= |bs|
  {
    if bs == [] then None
    else if bs[0] < 128 then Some(Decoded(bs[0], 1))
    else match DecodeGroups(bs[1..])
      case None => None
      case Some(d) => Some(Decoded(bs[0] - 128 + 128 * d.value, d.used + 1))
  }

  // At most ten groups of seven bits; only the low 64 bits are kept.
  function DecodeVarint(bs: seq<byte>): (r: Option<Decoded<nat>>)
    ensures r.Some? ==> 1 <= r.value.used <= |bs|
  {
    match DecodeGroups(Upto(bs, MAX_VARINT_BYTES))
    case None => None
    case Some(d) => Some(Decoded(d.value % TWO_64, d.used))
  }

  function Upto<T>(s: seq<T>, k: nat): seq<T>
  {
    if |s| <= k then s else s[..k]
  }

  lemma {:induction false} GroupsRoundTrip(n: nat, rest: seq<byte>)
    ensures DecodeGroups(EncodeVarint(n) + rest) == Some(Decoded(n, |EncodeVarint(n)|))
  {
    var bs := EncodeVarint(n) + rest;
    if n >= 128 {
      GroupsRoundTrip(n / 128, rest);
      assert bs[0] == 128 + n % 128 && bs[1..] == EncodeVarint(n / 128) + rest;
    } else {
      assert bs[0] == n;
    }
  }

  function Pow128(k: nat): nat
  {
    if k == 0 then 1 else 128 * Pow128(k - 1)
  }

  lemma {:induction false} VarintLength(n: nat, k: nat)
    requires 1 <= k && n < Pow128(k)
    ensures 1 <= |EncodeVarint(n)| <= k
  {
    if n >= 128 {
      VarintLength(n / 128, k - 1);
    }
  }

  lemma VarintRoundTrip(n: nat, rest: seq<byte>)
    requires n < TWO_64
    ensures DecodeVarint(EncodeVarint(n) + rest) == Some(Decoded(n, |EncodeVarint(n)|))
  {
    assert Pow128(10) == 128 * 128 * Pow128(8) == 128 * 128 * 128 * 128 * Pow128(6);
    assert Pow128(6) == 128 * 128 * Pow128(4) == 128 * 128 * 128 * 128 * Pow128(2);
    assert Pow128(2) == 128 * 128;
    VarintLength(n, MAX_VARINT_BYTES);
    var code := EncodeVarint(n);
    GroupsRoundTrip(n, Upto(rest, MAX_VARINT_BYTES - |code|));
    assert Upto(code + rest, MAX_VARINT_BYTES) == code + Upto(rest, MAX_VARINT_BYTES - |code|);
  }

  lemma {:induction false} GroupsStable(bs: seq<byte>, more: seq<byte>)
    requires DecodeGroups(bs).Some?
    ensures DecodeGroups(bs + more) == DecodeGroups(bs)
  {
    if bs[0] >= 128 {
      assert (bs + more)[1..] == bs[1..] + more;
      GroupsStable(bs[1..], more);
    }
  }

  // ----------------------------------------------------------------- fields

  datatype Payload =
    | Varint(n: nat)
    | Fixed64(raw: seq<byte>)
    | Blob(bytes: seq<byte>)
    | Fixed32(raw: seq<byte>)

  datatype Field = Field(id: nat, payload: Payload)

  // The unit that one call of the n-field decoder returns.
  type Frame = seq<Field>

  const MAX_FIELD_ID := 0x1FFF_FFFF

  predicate WellFormedField(f: Field)
  {
    && 1 <= f.id <= MAX_FIELD_ID
    && match f.payload
       case Varint(n) => n < TWO_64
       case Fixed64(raw) => |raw| == 8
       case Blob(bytes) => |bytes| < TWO_64
       case Fixed32(raw) => |raw| == 4
  }

  function WireType(p: Payload): nat
  {
    match p
    case Varint(_) => 0
    case Fixed64(_) => 1
    case Blob(_) => 2
    case Fixed32(_) => 5
  }

  function EncodePayload(p: Payload): seq<byte>
  {
    match p
    case Varint(n) => EncodeVarint(n)
    case Fixed64(raw) => raw
    case Blob(bytes) => EncodeVarint(|bytes|) + bytes
    case Fixed32(raw) => raw
  }

  function EncodeField(f: Field): seq<byte>
  {
    EncodeVarint(8 * f.id + WireType(f.payload)) + EncodePayload(f.payload)
  }

  function DecodePayload(bs: seq<byte>, wireType: nat): (r: Option<Decoded<Payload>>)
    ensures r.Some? ==> r.value.used <= |bs|
  {
    if wireType == 0 then
      match DecodeVarint(bs) {
        case None => None
        case Some(d) => Some(Decoded(Varint(d.value), d.used))
      }
    else if wireType == 1 then
      if |bs| < 8 then None else Some(Decoded(Fixed64(bs[..8]), 8))
    else if wireType == 2 then
      match DecodeVarint(bs) {
        case None => None
        case Some(d) =>
          if |bs| - d.used < d.value then None
          else Some(Decoded(Blob(bs[d.used..d.used + d.value]), d.used + d.value))
      }
    else if wireType == 5 then
      if |bs| < 4 then None else Some(Decoded(Fixed32(bs[..4]), 4))
    else None
  }

  function DecodeField(bs: seq<byte>): (r: Option<Decoded<Field>>)
    ensures r.Some? ==> 1 <= r.value.used <= |bs|
  {
    match DecodeVarint(bs)
    case None => None
    case Some(key) =>
      if key.value / 8 == 0 then None else
      match DecodePayload(bs[key.used..], key.value % 8)
      case None => None
      case Some(p) => Some(Decoded(Field(key.value / 8, p.value), key.used + p.used))
  }

  lemma Between(a: seq<byte>, b: seq<byte>, c: seq<byte>)
    ensures (a + b) + c == a + (b + c)
    ensures (a + b + c)[|a|..|a| + |b|] == b
  {
  }

  lemma PayloadRoundTrip(p: Payload, rest: seq<byte>)
    requires WellFormedField(Field(1, p))
    ensures DecodePayload(EncodePayload(p) + rest, WireType(p)) == Some(Decoded(p, |EncodePayload(p)|))
  {
    var bs := EncodePayload(p) + rest;
    match p
    case Varint(n) =>
      VarintRoundTrip(n, rest);
    case Blob(bytes) =>
      VarintRoundTrip(|bytes|, bytes + rest);
      Between(EncodeVarint(|bytes|), bytes, rest);
    case Fixed64(raw) =>
      assert bs[..8] == raw;
    case Fixed32(raw) =>
      assert bs[..4] == raw;
  }

  lemma FieldRoundTrip(f: Field, rest: seq<byte>)
    requires WellFormedField(f)
    ensures DecodeField(EncodeField(f) + rest) == Some(Decoded(f, |EncodeField(f)|))
  {
    var key := 8 * f.id + WireType(f.payload);
    var body := EncodePayload(f.payload) + rest;
    VarintRoundTrip(key, body);
    assert EncodeField(f) + rest == EncodeVarint(key) + body;
    assert (EncodeVarint(key) + body)[|EncodeVarint(key)|..] == body;
    PayloadRoundTrip(f.payload, rest);
  }

  lemma VarintStable(bs: seq<byte>, more: seq<byte>)
    requires DecodeVarint(bs).Some?
    ensures DecodeVarint(bs + more) == DecodeVarint(bs)
  {
    if |bs| <= MAX_VARINT_BYTES {
      assert Upto(bs + more, MAX_VARINT_BYTES) == bs + Upto(more, MAX_VARINT_BYTES - |bs|);
      GroupsStable(bs, Upto(more, MAX_VARINT_BYTES - |bs|));
    } else {
      assert (bs + more)[..MAX_VARINT_BYTES] == bs[..MAX_VARINT_BYTES];
    }
  }

  lemma PayloadStable(bs: seq<byte>, more: seq<byte>, wireType: nat)
    requires DecodePayload(bs, wireType).Some?
    ensures DecodePayload(bs + more, wireType) == DecodePayload(bs, wireType)
  {
    if wireType == 0 || wireType == 2 {
      VarintStable(bs, more);
      var d := DecodeVarint(bs).value;
      if wireType == 2 {
        assert (bs + more)[d.used..d.used + d.value] == bs[d.used..d.used + d.value];
      }
    } else if wireType == 1 {
      assert (bs + more)[..8] == bs[..8];
    } else {
      assert (bs + more)[..4] == bs[..4];
    }
  }

  lemma FieldStable(bs: seq<byte>, more: seq<byte>)
    requires DecodeField(bs).Some?
    ensures DecodeField(bs + more) == DecodeField(bs)
  {
    VarintStable(bs, more);
    var key := DecodeVarint(bs).value;
    assert (bs + more)[key.used..] == bs[key.used..] + more;
    PayloadStable(bs[key.used..], more, key.value % 8);
  }

  // ----------------------------------------------------------------- frames

  function EncodeFrame(fs: Frame): seq<byte>
  {
    if fs == [] then [] else EncodeField(fs[0]) + EncodeFrame(fs[1..])
  }

  // The decoder stops after n fields, whatever follows them.
  function DecodeFrame(bs: seq<byte>, n: nat): (r: Option<Decoded<Frame>>)
    ensures r.Some? ==> n <= r.value.used <= |bs|
    decreases n
  {
    if n == 0 then Some(Decoded([], 0))
    else match DecodeField(bs)
      case None => None
      case Some(f) =>
        match DecodeFrame(bs[f.used..], n - 1)
        case None => None
        case Some(fs) => Some(Decoded([f.value] + fs.value, f.used + fs.used))
  }

  predicate WellFormedFrame(fs: Frame, n: nat)
  {
    |fs| == n && forall f <- fs :: WellFormedField(f)
  }

  // Whatever bytes follow an encoded frame, decoding returns that frame and its exact length.
  lemma {:induction false} FrameRoundTrip(fs: Frame, n: nat, rest: seq<byte>)
    requires WellFormedFrame(fs, n)
    ensures DecodeFrame(EncodeFrame(fs) + rest, n) == Some(Decoded(fs, |EncodeFrame(fs)|))
    decreases n
  {
    hide DecodeField, EncodeField;
    if n == 0 {
      assert fs == [];
    } else {
      var tail := EncodeFrame(fs[1..]) + rest;
      assert EncodeFrame(fs) + rest == EncodeField(fs[0]) + tail;
      FieldRoundTrip(fs[0], tail);
      assert (EncodeField(fs[0]) + tail)[|EncodeField(fs[0])|..] == tail;
      FrameRoundTrip(fs[1..], n - 1, rest);
      assert [fs[0]] + fs[1..] == fs;
    }
  }

  // Bytes that arrive later never change a frame that already decodes.
  lemma {:induction false} FrameStable(bs: seq<byte>, more: seq<byte>, n: nat)
    requires DecodeFrame(bs, n).Some?
    ensures DecodeFrame(bs + more, n) == DecodeFrame(bs, n)
    decreases n
  {
    hide DecodeField, EncodeField;
    if n > 0 {
      var f := DecodeField(bs).value;
      FieldStable(bs, more);
      FrameStable(bs[f.used..], more, n - 1);
      assert (bs + more)[f.used..] == bs[f.used..] + more;
    }
  }

  // No proper prefix of a frame decodes, so a partial frame is always left in the buffer.
  lemma FramePrefixUndecodable(fs: Frame, n: nat, k: nat)
    requires WellFormedFrame(fs, n) && k < |EncodeFrame(fs)|
    ensures DecodeFrame(EncodeFrame(fs)[..k], n).None?
  {
    hide DecodeFrame, EncodeFrame;
    var bs := EncodeFrame(fs);
    if DecodeFrame(bs[..k], n).Some? {
      FrameStable(bs[..k], bs[k..], n);
      assert bs[..k] + bs[k..] == bs + [];
      FrameRoundTrip(fs, n, []);
    }
  }

  // ------------------------------------------------- the format, apart from the codec

  // Groups of seven bits, least significant first.
  function VarintValue(v: seq<byte>): nat
  {
    if v == [] then 0 else v[0] % 128 + 128 * VarintValue(v[1..])
  }

  // Every byte but the last has its high bit set.
  predicate Continued(v: seq<byte>)
  {
    v != [] && v[|v| - 1] < 128 && forall i :: 0 <= i < |v| - 1 ==> v[i] >= 128
  }

  // The low 64 bits of what at most ten such bytes say.
  predicate IsVarint(v: seq<byte>, n: nat)
  {
    Continued(v) && |v| <= 10 && VarintValue(v) % TWO_64 == n
  }

  ghost predicate IsPayload(p: Payload, wireType: nat, b: seq<byte>)
  {
    match p
    case Varint(n) => wireType == 0 && IsVarint(b, n)
    case Fixed64(raw) => wireType == 1 && |b| == 8 && raw == b
    case Blob(bytes) => wireType == 2 && exists c :: 0 <= c <= |b| && IsVarint(b[..c], |bytes|) && b[c..] == bytes
    case Fixed32(raw) => wireType == 5 && |b| == 4 && raw == b
  }

  // A key, which holds the field number and in its low three bits the wire type, then the payload.
  ghost predicate IsField(f: Field, b: seq<byte>)
  {
    f.id > 0 &&
    exists c, key: nat ::
      0 <= c <= |b| && IsVarint(b[..c], key) && f.id == key / 8 && IsPayload(f.payload, key % 8, b[c..])
  }

  lemma {:induction false} GroupsExact(bs: seq<byte>, n: nat, k: nat)
    ensures DecodeGroups(bs) == Some(Decoded(n, k)) <==> k <= |bs| && Continued(bs[..k]) && VarintValue(bs[..k]) == n
    decreases |bs|
  {
    if bs == [] {
      assert bs[..0] == [];
    } else if k > 0 && k <= |bs| {
      var v := bs[..k];
      assert v[0] == bs[0] && v[1..] == bs[1..][..k - 1];
      if bs[0] >= 128 {
        var tail := VarintValue(v[1..]);
        GroupsExact(bs[1..], tail, k - 1);
        if DecodeGroups(bs[1..]).Some? {
          GroupsExact(bs[1..], DecodeGroups(bs[1..]).value.value, DecodeGroups(bs[1..]).value.used);
        }
        assert Continued(v) <==> Continued(v[1..]) by { ContinuedTail(v); }
      } else if k == 1 {
        assert v[1..] == [];
      } else {
        assert v[0] < 128 && !Continued(v);
      }
    } else {
      assert k == 0 ==> bs[..k] == [];
    }
  }

  lemma ContinuedTail(v: seq<byte>)
    requires v != [] && v[0] >= 128
    ensures Continued(v) <==> Continued(v[1..])
  {
    var w := v[1..];
    assert forall i :: 0 <= i < |w| ==> w[i] == v[i + 1];
    assert Continued(w) ==> forall i :: 0 <= i < |v| - 1 ==> v[i] >= 128 by {
      forall i | Continued(w) && 0 <= i < |v| - 1 ensures v[i] >= 128 {
        if i > 0 { assert w[i - 1] >= 128; }
      }
    }
  }

  // What the varint decoder accepts, and how much of it.
  lemma DecodeVarintExact(bs: seq<byte>, n: nat, k: nat)
    ensures DecodeVarint(bs) == Some(Decoded(n, k)) <==> k <= |bs| && IsVarint(bs[..k], n)
  {
    var head := Upto(bs, MAX_VARINT_BYTES);
    if k <= |head| {
      assert head[..k] == bs[..k];
      GroupsExact(head, VarintValue(bs[..k]), k);
    }
    if DecodeGroups(head).Some? {
      GroupsExact(head, DecodeGroups(head).value.value, DecodeGroups(head).value.used);
    }
  }

  lemma PayloadExact(bs: seq<byte>, wireType: nat, p: Payload, k: nat)
    ensures DecodePayload(bs, wireType) == Some(Decoded(p, k)) <==> k <= |bs| && IsPayload(p, wireType, bs[..k])
  {
    hide DecodeVarint, IsVarint;
    if wireType == 0 && p.Varint? {
      DecodeVarintExact(bs, p.n, k);
    } else if wireType == 2 && p.Blob? {
      BlobExact(bs, p.bytes, k);
    }
  }

  lemma BlobExact(bs: seq<byte>, bytes: seq<byte>, k: nat)
    ensures DecodePayload(bs, 2) == Some(Decoded(Blob(bytes), k)) <==> k <= |bs| && IsPayload(Blob(bytes), 2, bs[..k])
  {
    hide DecodeVarint, IsVarint;
    if k <= |bs| && IsPayload(Blob(bytes), 2, bs[..k]) {
      var b := bs[..k];
      var c :| 0 <= c <= |b| && IsVarint(b[..c], |bytes|) && b[c..] == bytes;
      assert b[..c] == bs[..c] && bs[c..c + |bytes|] == b[c..];
      DecodeVarintExact(bs, |bytes|, c);
    }
    if DecodePayload(bs, 2) == Some(Decoded(Blob(bytes), k)) {
      var d := DecodeVarint(bs).value;
      DecodeVarintExact(bs, d.value, d.used);
      assert bs[..k][..d.used] == bs[..d.used] && bs[..k][d.used..] == bs[d.used..k];
    }
  }

  // What the field decoder accepts, and how much of it.
  lemma DecodeFieldExact(bs: seq<byte>, f: Field, k: nat)
    ensures DecodeField(bs) == Some(Decoded(f, k)) <==> k <= |bs| && IsField(f, bs[..k])
  {
    hide DecodeVarint, IsVarint, DecodePayload, IsPayload;
    if k <= |bs| && IsField(f, bs[..k]) {
      var b := bs[..k];
      var c, key: nat :|
        0 <= c <= |b| && IsVarint(b[..c], key) && f.id == key / 8 && IsPayload(f.payload, key % 8, b[c..]);
      assert b[..c] == bs[..c] && b[c..] == bs[c..][..k - c];
      DecodeVarintExact(bs, key, c);
      PayloadExact(bs[c..], key % 8, f.payload, k - c);
    }
    if DecodeField(bs) == Some(Decoded(f, k)) {
      var d := DecodeVarint(bs).value;
      var p := DecodePayload(bs[d.used..], d.value % 8).value;
      DecodeVarintExact(bs, d.value, d.used);
      PayloadExact(bs[d.used..], d.value % 8, p.value, p.used);
      assert bs[..k][..d.used] == bs[..d.used] && bs[..k][d.used..] == bs[d.used..][..p.used];
    }
  }

  // Fields one after another.
  ghost predicate IsFrame(fs: Frame, b: seq<byte>)
  {
    if fs == [] then b == []
    else exists c :: 0 <= c <= |b| && IsField(fs[0], b[..c]) && IsFrame(fs[1..], b[c..])
  }

  // What the decoder of n fields accepts, and how much of it: exactly n fields of the format.
  lemma {:induction false} DecodeFrameExact(bs: seq<byte>, n: nat, fs: Frame, k: nat)
    ensures DecodeFrame(bs, n) == Some(Decoded(fs, k)) <==> |fs| == n && k <= |bs| && IsFrame(fs, bs[..k])
    decreases n
  {
    hide DecodeField, IsField;
    if n == 0 {
      assert bs[..0] == [];
    } else {
      if |fs| == n && k <= |bs| && IsFrame(fs, bs[..k]) {
        var b := bs[..k];
        var c :| 0 <= c <= |b| && IsField(fs[0], b[..c]) && IsFrame(fs[1..], b[c..]);
        assert b[..c] == bs[..c] && b[c..] == bs[c..][..k - c];
        DecodeFieldExact(bs, fs[0], c);
        DecodeFrameExact(bs[c..], n - 1, fs[1..], k - c);
        assert [fs[0]] + fs[1..] == fs;
      }
      if DecodeFrame(bs, n) == Some(Decoded(fs, k)) {
        var f := DecodeField(bs).value;
        var rest := DecodeFrame(bs[f.used..], n - 1).value;
        DecodeFieldExact(bs, f.value, f.used);
        DecodeFrameExact(bs[f.used..], n - 1, rest.value, rest.used);
        assert bs[..k][..f.used] == bs[..f.used] && bs[..k][f.used..] == bs[f.used..][..rest.used];
        assert fs[1..] == rest.value;
      }
    }
  }

  // ------------------------------------------------------- typed messages

  datatype IMRequest = IMRequest(kind: uint32, value: Bytes)
  datatype IMResponse = IMResponse(kind: uint32, success: bool, value: Bytes)

  const REQUEST_FIELDS := 2
  const RESPONSE_FIELDS := 3

  function RequestToFrame(m: IMRequest): Frame
  {
    [Field(1, Varint(m.kind)), Field(2, Blob(m.value))]
  }

  function ResponseToFrame(m: IMResponse): Frame
  {
    [Field(1, Varint(m.kind)), Field(2, Varint(if m.success then 1 else 0)), Field(3, Blob(m.value))]
  }

  // The first field with the given id.
  function FindField(fs: Frame, id: nat): Option<Payload>
  {
    if fs == [] then None
    else if fs[0].id == id then Some(fs[0].payload)
    else FindField(fs[1..], id)
  }

  // A missing or differently typed field is None: the C code dereferences it unchecked.
  function FrameToRequest(fs: Frame): Option<IMRequest>
  {
    match (FindField(fs, 1), FindField(fs, 2))
    case (Some(Varint(n)), Some(Blob(b))) =>
      if |b| < TWO_64 then Some(IMRequest(n % TWO_32, b)) else None
    case _ => None
  }

  function FrameToResponse(fs: Frame): Option<IMResponse>
  {
    match (FindField(fs, 1), FindField(fs, 2), FindField(fs, 3))
    case (Some(Varint(n)), Some(Varint(ok)), Some(Blob(b))) =>
      if |b| < TWO_64 then Some(IMResponse(n % TWO_32, ok % 256 != 0, b)) else None
    case _ => None
  }

  function EncodeRequest(m: IMRequest): seq<byte>
  {
    EncodeFrame(RequestToFrame(m))
  }

  function EncodeResponse(m: IMResponse): seq<byte>
  {
    EncodeFrame(ResponseToFrame(m))
  }

  function DecodeRequest(bs: seq<byte>): Option<Decoded<IMRequest>>
  {
    match DecodeFrame(bs, REQUEST_FIELDS)
    case None => None
    case Some(d) =>
      match FrameToRequest(d.value)
      case None => None
      case Some(m) => Some(Decoded(m, d.used))
  }

  function DecodeResponse(bs: seq<byte>): Option<Decoded<IMResponse>>
  {
    match DecodeFrame(bs, RESPONSE_FIELDS)
    case None => None
    case Some(d) =>
      match FrameToResponse(d.value)
      case None => None
      case Some(m) => Some(Decoded(m, d.used))
  }

  lemma {:induction false} FindFieldAt(fs: Frame, k: nat)
    requires k < |fs| && forall i :: 0 <= i < k ==> fs[i].id != fs[k].id
    ensures FindField(fs, fs[k].id) == Some(fs[k].payload)
  {
    if k > 0 {
      assert fs[0].id != fs[k].id;
      assert forall i :: 0 <= i < k - 1 ==> fs[1..][i] == fs[i + 1];
      FindFieldAt(fs[1..], k - 1);
    }
  }

  // What the encoder writes for a number, in the fewest bytes.
  lemma {:induction false} EncodedVarint(n: nat)
    requires n < TWO_64
    ensures IsVarint(EncodeVarint(n), n)
    ensures var v := EncodeVarint(n); |v| == 1 || v[|v| - 1] != 0
    ensures n < 128 ==> EncodeVarint(n) == [n]
  {
    VarintRoundTrip(n, []);
    var v := EncodeVarint(n);
    assert v + [] == v == v[..|v|];
    DecodeVarintExact(v, n, |v|);
    if n >= 128 {
      EncodedVarint(n / 128);
      assert v[1..] == EncodeVarint(n / 128);
    }
  }

  lemma {:induction false} FrameOf(a: Field, rest: Frame)
    ensures EncodeFrame([a] + rest) == EncodeField(a) + EncodeFrame(rest)
    ensures EncodeFrame([a]) == EncodeField(a)
  {
    assert ([a] + rest)[1..] == rest && [a][1..] == [];
    assert EncodeField(a) + [] == EncodeField(a);
  }

  // The bytes of a request: field 1 a varint, field 2 length-delimited.
  lemma RequestBytes(m: IMRequest)
    ensures var k, l := EncodeVarint(m.kind), EncodeVarint(|m.value|);
      && IsVarint(k, m.kind) && IsVarint(l, |m.value|)
      && EncodeRequest(m) == [0x08] + k + [0x12] + l + m.value
  {
    EncodedVarint(m.kind);
    EncodedVarint(|m.value|);
    var a, b := Field(1, Varint(m.kind)), Field(2, Blob(m.value));
    FrameOf(a, [b]);
    FrameOf(b, []);
    hide EncodeVarint, IsVarint, EncodeField, EncodeFrame;
    assert RequestToFrame(m) == [a] + [b];
    assert EncodeRequest(m) == ([0x08] + EncodeVarint(m.kind)) + ([0x12] + (EncodeVarint(|m.value|) + m.value));
  }

  // The bytes of a response: fields 1 and 2 varints, field 3 length-delimited.
  lemma ResponseBytes(m: IMResponse)
    ensures var k, l := EncodeVarint(m.kind), EncodeVarint(|m.value|);
      && IsVarint(k, m.kind) && IsVarint(l, |m.value|)
      && EncodeResponse(m) == [0x08] + k + [0x10, if m.success then 1 else 0] + [0x1A] + l + m.value
  {
    EncodedVarint(m.kind);
    EncodedVarint(|m.value|);
    var ok := if m.success then 1 else 0;
    EncodedVarint(ok);
    var a, b, c := Field(1, Varint(m.kind)), Field(2, Varint(ok)), Field(3, Blob(m.value));
    FrameOf(a, [b] + [c]);
    FrameOf(b, [c]);
    FrameOf(c, []);
    hide EncodeVarint, IsVarint, EncodeField, EncodeFrame;
    assert ResponseToFrame(m) == [a] + ([b] + [c]);
    assert [0x10] + [ok] == [0x10, ok];
    assert EncodeResponse(m)
        == ([0x08] + EncodeVarint(m.kind)) + ([0x10, ok] + ([0x1A] + (EncodeVarint(|m.value|) + m.value)));
    Regroup([0x08], EncodeVarint(m.kind), [0x10, ok], [0x1A], EncodeVarint(|m.value|), m.value);
  }

  lemma Regroup<T>(a: seq<T>, b: seq<T>, c: seq<T>, d: seq<T>, e: seq<T>, f: seq<T>)
    ensures (a + b) + (c + (d + (e + f))) == a + b + c + d + e + f
  {
  }

  // What is read from the fields: the first of each number, the kind in 32 bits, success when
  // the low byte is not zero, whatever order they come in and whatever else there is.
  lemma FieldsRead(fs: Frame, n: nat, ok: nat, b: Bytes)
    ensures FindField(fs, 1) == Some(Varint(n)) && FindField(fs, 2) == Some(Blob(b)) ==>
      FrameToRequest(fs) == Some(IMRequest(n % 0x1_0000_0000, b))
    ensures var read := FrameToResponse(fs);
      (FindField(fs, 1) == Some(Varint(n)) && FindField(fs, 2) == Some(Varint(ok)) && FindField(fs, 3) == Some(Blob(b)))
      ==> read == Some(IMResponse(n % 0x1_0000_0000, ok % 256 != 0, b))
  {
  }

  lemma RequestRoundTrip(m: IMRequest, rest: seq<byte>)
    ensures FrameToRequest(RequestToFrame(m)) == Some(m)
    ensures DecodeRequest(EncodeRequest(m) + rest) == Some(Decoded(m, |EncodeRequest(m)|))
  {
    hide DecodeFrame, EncodeFrame;
    var fs := RequestToFrame(m);
    FindFieldAt(fs, 0);
    FindFieldAt(fs, 1);
    FrameRoundTrip(fs, REQUEST_FIELDS, rest);
  }

  lemma ResponseRoundTrip(m: IMResponse, rest: seq<byte>)
    ensures FrameToResponse(ResponseToFrame(m)) == Some(m)
    ensures DecodeResponse(EncodeResponse(m) + rest) == Some(Decoded(m, |EncodeResponse(m)|))
  {
    hide DecodeFrame, EncodeFrame;
    var fs := ResponseToFrame(m);
    FindFieldAt(fs, 0);
    FindFieldAt(fs, 1);
    FindFieldAt(fs, 2);
    FrameRoundTrip(fs, RESPONSE_FIELDS, rest);
  }
}
