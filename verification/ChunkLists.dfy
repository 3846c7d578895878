// Chunk numbers typed by a user, packed into bytes by the client and unpacked by the
// server (pack_repeated_uint32_from_str and parse_packed_uint32).
module ChunkLists {
  import opened Basics

  // ----------------------------------------------------------------- strtol

  const LONG_MAX := 0x7FFF_FFFF_FFFF_FFFF
  const LONG_MIN := -0x8000_0000_0000_0000

  predicate IsSpace(c: byte)
  {
    c == 32 || 9 <= c <= 13
  }

  predicate IsDigit(c: byte)
  {
    48 <= c <= 57
  }

  predicate IsSign(c: byte)
  {
    c == 43 || c == 45
  }

  function SkipSpaces(s: Name, i: nat): (j: nat)
    requires i <= |s|
    ensures i <= j <= |s|
    ensures j < |s| ==> !IsSpace(s[j])
    ensures i < j ==> IsSpace(s[i])
    decreases |s| - i
  {
    if i < |s| && IsSpace(s[i]) then SkipSpaces(s, i + 1) else i
  }

  function SkipDigits(s: Name, i: nat): (j: nat)
    requires i <= |s|
    ensures i <= j <= |s|
    ensures j < |s| ==> !IsDigit(s[j])
    ensures i < j ==> IsDigit(s[i])
    decreases |s| - i
  {
    if i < |s| && IsDigit(s[i]) then SkipDigits(s, i + 1) else i
  }

  // The digits of s from i up to, but not including, j.
  function DigitsValue(s: Name, i: nat, j: nat): nat
    requires i <= j <= |s|
    requires forall k :: i <= k < j ==> IsDigit(s[k])
    decreases j
  {
    if i == j then 0 else
      assert IsDigit(s[j - 1]);
      10 * DigitsValue(s, i, j - 1) + (s[j - 1] as int - 48)
  }

  lemma {:induction false} DigitsBetween(s: Name, i: nat)
    requires i <= |s|
    ensures forall k :: i <= k < SkipDigits(s, i) ==> IsDigit(s[k])
    decreases |s| - i
  {
    if i < |s| && IsDigit(s[i]) {
      DigitsBetween(s, i + 1);
    }
  }

  // strtol(s + i, &e, 10): the clamped value and where it stopped; it stops where it
  // started when there is no number.
  function Strtol(s: Name, i: nat): (r: (int, nat))
    requires i <= |s|
    ensures r.1 == i || i < r.1 <= |s|
    ensures i < r.1 < |s| ==> !IsDigit(s[r.1])
    ensures i < r.1 && i < |s| && !IsDigit(s[i]) ==> i + 2 <= r.1
  {
    var a := SkipSpaces(s, i);
    var b := if a < |s| && IsSign(s[a]) then a + 1 else a;
    var e := SkipDigits(s, b);
    if e == b then (0, i)
    else
      DigitsBetween(s, b);
      var n: int := DigitsValue(s, b, e);
      (Clamp(if b > a && s[a] == 45 then -n else n), e)
  }

  function Clamp(n: int): int
  {
    if n < LONG_MIN then LONG_MIN else if n > LONG_MAX then LONG_MAX else n
  }

  // Blanks up to a, at most one sign up to b, and digits up to e, where they end.
  predicate Numeral(s: Name, i: nat, a: nat, b: nat, e: nat)
  {
    && i <= a <= b < e <= |s|
    && (forall k :: i <= k < a ==> IsSpace(s[k]))
    && (b == a || (b == a + 1 && IsSign(s[a])))
    && (forall k :: b <= k < e ==> IsDigit(s[k]))
    && (e < |s| ==> !IsDigit(s[e]))
  }

  lemma {:induction false} SpacesBetween(s: Name, i: nat)
    requires i <= |s|
    ensures forall k :: i <= k < SkipSpaces(s, i) ==> IsSpace(s[k])
    decreases |s| - i
  {
    if i < |s| && IsSpace(s[i]) {
      SpacesBetween(s, i + 1);
    }
  }

  lemma {:induction false} SkipAllSpaces(s: Name, i: nat, j: nat)
    requires i <= j <= |s| && (forall k :: i <= k < j ==> IsSpace(s[k])) && (j < |s| ==> !IsSpace(s[j]))
    ensures SkipSpaces(s, i) == j
    decreases j - i
  {
    if i < j {
      SkipAllSpaces(s, i + 1, j);
    }
  }

  lemma NumeralValue(s: Name, i: nat, a: nat, b: nat, e: nat)
    requires Numeral(s, i, a, b, e)
    ensures var n: int := DigitsValue(s, b, e);
      Strtol(s, i) == (Clamp(if b > a && s[a] == 45 then -n else n), e)
  {
    assert IsDigit(s[b]);
    SkipAllSpaces(s, i, a);
    SkipAllDigits(s, b, e);
  }

  lemma NumeralFound(s: Name, i: nat)
    requires i <= |s| && Strtol(s, i).1 != i
    ensures exists a: nat, b: nat, e: nat :: Numeral(s, i, a, b, e)
  {
    var a := SkipSpaces(s, i);
    var b := if a < |s| && IsSign(s[a]) then a + 1 else a;
    SpacesBetween(s, i);
    DigitsBetween(s, b);
    assert Numeral(s, i, a, b, SkipDigits(s, b));
  }

  // The conversion stops where it began exactly when no numeral starts there, and otherwise
  // yields the value of the numeral, clamped to a long, and the position behind it.
  lemma StrtolExact(s: Name, i: nat)
    requires i <= |s|
    ensures Strtol(s, i).1 == i <==> !exists a: nat, b: nat, e: nat :: Numeral(s, i, a, b, e)
    ensures forall a: nat, b: nat, e: nat :: Numeral(s, i, a, b, e) ==>
      var n: int := DigitsValue(s, b, e);
      Strtol(s, i) == (Clamp(if b > a && s[a] == 45 then -n else n), e)
  {
    forall a: nat, b: nat, e: nat | Numeral(s, i, a, b, e)
      ensures var n: int := DigitsValue(s, b, e);
        Strtol(s, i) == (Clamp(if b > a && s[a] == 45 then -n else n), e)
    {
      NumeralValue(s, i, a, b, e);
    }
    hide Strtol;
    if Strtol(s, i).1 != i {
      NumeralFound(s, i);
    }
  }

  // The numbers in s from position i, each cut to 32 bits; None when something is not a number.
  function Numbers(s: Name, i: nat): Option<seq<uint32>>
    requires i <= |s|
    decreases |s| - i
  {
    var (v, e) := Strtol(s, i);
    if e == i then None
    else if e == |s| then Some([v % TWO_32])
    else Prepend([v % TWO_32], Numbers(s, e))
  }

  // From i to e stands a numeral, and v is its value as a long, cut to 32 bits: too large a
  // number counts as the largest long, too small a one as the smallest.
  ghost predicate Reads(s: Name, i: nat, e: nat, v: uint32)
  {
    exists a: nat, b: nat :: Numeral(s, i, a, b, e) &&
      var digits: int := DigitsValue(s, b, e);
      var n := if b > a && s[a] == 45 then -digits else digits;
      v == if n > LONG_MAX then 0xFFFF_FFFF else if n < LONG_MIN then 0 else n % 0x1_0000_0000
  }

  // The cuts go from i to the end of s, and from each to the next stands a number.
  ghost predicate Cuts(s: Name, i: nat, cuts: seq<nat>, vs: seq<uint32>)
  {
    && |cuts| == |vs| + 1 >= 2
    && cuts[0] == i && cuts[|vs|] == |s|
    && forall j :: 0 <= j < |vs| ==> Reads(s, cuts[j], cuts[j + 1], vs[j])
  }

  lemma ReadsExact(s: Name, i: nat, e: nat, v: uint32)
    requires i <= |s|
    ensures Reads(s, i, e, v) <==> Strtol(s, i).1 == e != i && v == Strtol(s, i).0 % TWO_32
  {
    StrtolExact(s, i);
    assert LONG_MAX % TWO_32 == 0xFFFF_FFFF && LONG_MIN % TWO_32 == 0;
    if Strtol(s, i).1 == e != i {
      var a: nat, b: nat, e': nat :| Numeral(s, i, a, b, e');
      assert Strtol(s, i).1 == e';
    }
  }

  lemma CutsCons(s: Name, i: nat, tail: seq<nat>, vs: seq<uint32>)
    requires |vs| > 1 && tail != [] && Reads(s, i, tail[0], vs[0]) && Cuts(s, tail[0], tail, vs[1..])
    ensures Cuts(s, i, [i] + tail, vs)
  {
    hide Reads;
    var cuts := [i] + tail;
    forall j | 0 <= j < |vs| ensures Reads(s, cuts[j], cuts[j + 1], vs[j]) {
      if j > 0 { assert vs[1..][j - 1] == vs[j] && Reads(s, tail[j - 1], tail[j], vs[1..][j - 1]); }
    }
  }

  lemma CutsTail(s: Name, i: nat, cuts: seq<nat>, vs: seq<uint32>)
    requires |vs| > 1 && Cuts(s, i, cuts, vs)
    ensures Cuts(s, cuts[1], cuts[1..], vs[1..])
  {
    hide Reads;
    var tail := cuts[1..];
    forall j | 0 <= j < |vs| - 1 ensures Reads(s, tail[j], tail[j + 1], vs[1..][j]) {
      assert Reads(s, cuts[j + 1], cuts[j + 2], vs[j + 1]);
    }
  }

  // The whole string is numbers, and these.
  lemma {:induction false} NumbersExact(s: Name, i: nat, vs: seq<uint32>)
    requires i <= |s|
    ensures Numbers(s, i) == Some(vs) <==> exists cuts :: Cuts(s, i, cuts, vs)
    decreases |s| - i
  {
    hide Strtol, Reads;
    var (v, e) := Strtol(s, i);
    if Numbers(s, i) == Some(vs) {
      ReadsExact(s, i, e, v % TWO_32);
      if e == |s| {
        assert Cuts(s, i, [i, e], vs);
      } else {
        NumbersExact(s, e, vs[1..]);
        var tail :| Cuts(s, e, tail, vs[1..]);
        CutsCons(s, i, tail, vs);
      }
    }
    if cuts :| Cuts(s, i, cuts, vs) {
      ReadsExact(s, i, cuts[1], vs[0]);
      if |vs| > 1 {
        CutsTail(s, i, cuts, vs);
        ReadsExact(s, cuts[1], cuts[2], vs[1]);
        NumbersExact(s, e, vs[1..]);
        assert [vs[0]] + vs[1..] == vs;
      } else {
        assert vs == [vs[0]];
      }
    }
  }

  function Prepend<T>(xs: seq<T>, r: Option<seq<T>>): Option<seq<T>>
  {
    match r
    case None => None
    case Some(ys) => Some(xs + ys)
  }

  lemma PrependTwice<T>(xs: seq<T>, ys: seq<T>, r: Option<seq<T>>)
    ensures Prepend([], r) == r
    ensures Prepend(xs, Prepend(ys, r)) == Prepend(xs + ys, r)
  {
    match r
    case None =>
    case Some(zs) =>
      Reassociate(xs, ys, zs);
      assert [] + zs == zs;
  }

  // ---------------------------------------------------------------- packing

  // uint32_t in memory, least significant byte first.
  function WordBytes(v: uint32): (bs: seq<byte>)
    ensures |bs| == 4
  {
    [v % 256, v / 0x100 % 256, v / 0x1_0000 % 256, v / 0x100_0000]
  }

  function Pack(vs: seq<uint32>): (bs: seq<byte>)
    ensures |bs| == 4 * |vs|
  {
    if vs == [] then [] else WordBytes(vs[0]) + Pack(vs[1..])
  }

  function WordAt(bs: seq<byte>, i: nat): uint32
    requires i + 4 <= |bs|
  {
    bs[i] as int + 0x100 * bs[i + 1] as int + 0x1_0000 * bs[i + 2] as int + 0x100_0000 * bs[i + 3] as int
  }

  // A trailing part shorter than a word is ignored.
  function Unpack(bs: seq<byte>): (vs: seq<uint32>)
    ensures |vs| == |bs| / 4
    ensures forall i :: 0 <= i < |vs| ==> vs[i] == WordAt(bs, 4 * i)
  {
    seq(|bs| / 4, i requires 0 <= i < |bs| / 4 => WordAt(bs, 4 * i))
  }

  lemma WordRoundTrip(v: uint32)
    ensures WordAt(WordBytes(v), 0) == v
  {
    var a, b, c := v / 0x100, v / 0x1_0000, v / 0x100_0000;
    assert a / 256 == b && b / 256 == c;
    assert v == 256 * a + v % 256 && a == 256 * b + a % 256 && b == 256 * c + b % 256;
  }

  lemma {:induction false} PackAt(vs: seq<uint32>, i: nat)
    requires i < |vs|
    ensures Pack(vs)[4 * i..4 * i + 4] == WordBytes(vs[i])
  {
    hide WordBytes;
    var tail := Pack(vs[1..]);
    assert Pack(vs) == WordBytes(vs[0]) + tail;
    if i > 0 {
      PackAt(vs[1..], i - 1);
      assert Pack(vs)[4 * i..4 * i + 4] == tail[4 * (i - 1)..4 * (i - 1) + 4];
    }
  }

  lemma WordInside(bs: seq<byte>, i: nat, w: seq<byte>)
    requires i + 4 <= |bs| && |w| == 4 && bs[i..i + 4] == w
    ensures WordAt(bs, i) == WordAt(w, 0)
  {
  }

  // What the client packs, the server reads, whatever incomplete word follows.
  lemma PackRoundTrip(vs: seq<uint32>, rest: seq<byte>)
    requires |rest| < 4
    ensures Unpack(Pack(vs) + rest) == vs
  {
    hide WordBytes, WordAt;
    var bs := Pack(vs) + rest;
    forall i | 0 <= i < |vs| ensures Unpack(bs)[i] == vs[i] {
      PackAt(vs, i);
      assert bs[4 * i..4 * i + 4] == Pack(vs)[4 * i..4 * i + 4];
      WordInside(bs, 4 * i, WordBytes(vs[i]));
      WordRoundTrip(vs[i]);
    }
  }

  // Least significant byte first.
  lemma PackedBytes(vs: seq<uint32>, i: nat)
    requires i < |vs|
    ensures var b := Pack(vs)[4 * i..];
      vs[i] == b[0] as int + 0x100 * b[1] as int + 0x1_0000 * b[2] as int + 0x100_0000 * b[3] as int
  {
    PackAt(vs, i);
    WordInside(Pack(vs), 4 * i, WordBytes(vs[i]));
    WordRoundTrip(vs[i]);
  }

  lemma NumbersMeansCuts(s: Name)
    ensures Numbers(s, 0).Some? <==> exists vs, cuts :: Cuts(s, 0, cuts, vs)
    ensures forall vs, cuts :: Cuts(s, 0, cuts, vs) ==> Numbers(s, 0) == Some(vs)
  {
    hide Numbers, Cuts;
    forall vs, cuts | Cuts(s, 0, cuts, vs) ensures Numbers(s, 0) == Some(vs) {
      NumbersExact(s, 0, vs);
    }
    if Numbers(s, 0).Some? {
      NumbersExact(s, 0, Numbers(s, 0).value);
    }
  }

  // pack_repeated_uint32_from_str: something is packed if and only if the whole string is
  // numbers, one behind the other, and then exactly those. The scratch array has 1 + strlen / 2
  // entries, and every write, the one on the failing round included, stays inside it.
  method PackRepeatedUint32FromStr(str: Name) returns (n: nat, bytes: seq<byte>)
    ensures n > 0 <==> exists vs, cuts :: Cuts(str, 0, cuts, vs)
    ensures forall vs, cuts :: Cuts(str, 0, cuts, vs) ==> n == |vs| && bytes == Pack(vs)
    ensures n == 0 ==> bytes == []
  {
    NumbersMeansCuts(str);
    n, bytes := PackNumbers(str);
  }

  // The two loops.
  method PackNumbers(str: Name) returns (n: nat, bytes: seq<byte>)
    ensures match Numbers(str, 0)
      case None => n == 0 && bytes == []
      case Some(vs) => n == |vs| > 0 && bytes == Pack(vs)
  {
    bytes := [];
    var vals := new uint32[1 + |str| / 2];
    var ret := 0;
    var s := 0;
    PrependTwice<uint32>([], [], Numbers(str, 0));
    assert vals[..0] == [];
    while true
      invariant 0 <= s <= |str|
      invariant ret == 0 ==> s == 0
      invariant ret > 0 ==> s < |str| && !IsDigit(str[s]) && 2 * ret - 1 <= s
      invariant Numbers(str, 0) == Prepend(vals[..ret], Numbers(str, s))
      decreases |str| - s
    {
      assert ret < vals.Length;
      ghost var done := vals[..ret];
      var (v, e) := Strtol(str, s);
      vals[ret] := v % TWO_32;
      assert vals[..ret] == done && vals[..ret + 1] == done + [v % TWO_32];
      if e == s {
        return 0, [];
      }
      ret := ret + 1;
      if e == |str| {
        break;
      }
      PrependTwice(done, [v % TWO_32], Numbers(str, e));
      s := e;
    }
    n := ret;
    bytes := PackWords(vals, ret);
  }

  method PackWords(vals: array<uint32>, n: nat) returns (bytes: seq<byte>)
    requires n <= vals.Length
    ensures bytes == Pack(vals[..n])
  {
    bytes := [];
    var i := 0;
    while i < n
      invariant 0 <= i <= n
      invariant bytes == Pack(vals[..i])
    {
      PackAppend(vals[..i], vals[i]);
      assert vals[..i + 1] == vals[..i] + [vals[i]];
      bytes := bytes + WordBytes(vals[i]);
      i := i + 1;
    }
  }

  lemma {:induction false} PackAppend(vs: seq<uint32>, v: uint32)
    ensures Pack(vs + [v]) == Pack(vs) + WordBytes(v)
  {
    if vs == [] {
      assert [v][1..] == [];
      assert Pack([v]) == WordBytes(v) + Pack([]);
    } else {
      PackAppend(vs[1..], v);
      assert (vs + [v])[1..] == vs[1..] + [v];
      Reassociate(WordBytes(vs[0]), Pack(vs[1..]), WordBytes(v));
    }
  }

  // parse_packed_uint32.
  method ParsePackedUint32(bytes: seq<byte>) returns (values: seq<uint32>)
    ensures values == Unpack(bytes)
  {
    var len := |bytes| / 4;
    values := [];
    var i := 0;
    while i < len
      invariant 0 <= i <= len
      invariant values == Unpack(bytes)[..i]
    {
      values := values + [WordAt(bytes, 4 * i)];
      i := i + 1;
    }
  }

  // ------------------------------------------------- typing and reading back

  function Decimal(n: nat): (s: Name)
    ensures s != [] && forall c <- s :: IsDigit(c)
  {
    if n < 10 then [48 + n] else Decimal(n / 10) + [48 + n % 10]
  }

  function Typed(vs: seq<uint32>): Name
    requires vs != []
  {
    if |vs| == 1 then Decimal(vs[0]) else Decimal(vs[0]) + [32] + Typed(vs[1..])
  }

  lemma {:induction false} DecimalValue(n: nat, s: Name, i: nat, j: nat)
    requires i <= j <= |s| && s[i..j] == Decimal(n)
    ensures forall k :: i <= k < j ==> IsDigit(s[k])
    ensures DigitsValue(s, i, j) == n
    decreases n
  {
    var d := Decimal(n);
    forall k | i <= k < j ensures IsDigit(s[k]) {
      assert s[k] == s[i..j][k - i] && d[k - i] in d;
    }
    if n < 10 {
      assert d == [48 + n] && s[i] == s[i..j][0];
      assert DigitsValue(s, i, i) == 0;
    } else {
      var front := Decimal(n / 10);
      assert d == front + [48 + n % 10];
      assert s[j - 1] == s[i..j][j - 1 - i] == d[|front|];
      assert s[i..j - 1] == s[i..j][..j - 1 - i] == d[..|front|] == front;
      DecimalValue(n / 10, s, i, j - 1);
    }
  }

  lemma {:induction false} SkipAllDigits(s: Name, i: nat, j: nat)
    requires i <= j <= |s| && (forall k :: i <= k < j ==> IsDigit(s[k])) && (j < |s| ==> !IsDigit(s[j]))
    ensures SkipDigits(s, i) == j
    decreases j - i
  {
    if i < j {
      SkipAllDigits(s, i + 1, j);
    }
  }

  // strtol reads one typed number, with or without the blank in front of it.
  lemma StrtolDecimal(n: uint32, s: Name, i: nat, j: nat)
    requires i <= j <= |s| && (s[i..j] == Decimal(n) || s[i..j] == [32] + Decimal(n))
    requires j < |s| ==> !IsDigit(s[j])
    ensures Strtol(s, i) == (n, j) && i < j
  {
    var b := if s[i..j] == Decimal(n) then i else i + 1;
    assert s[b..j] == Decimal(n);
    DecimalValue(n, s, b, j);
    SkipAllDigits(s, b, j);
    assert |Decimal(n)| == j - b > 0;
    assert IsDigit(s[b]);
    if b == i + 1 {
      assert s[i] == s[i..j][0] == 32;
      assert SkipSpaces(s, b) == b;
    }
    assert SkipSpaces(s, i) == b;
  }

  lemma SplitTyped(s: Name, i: nat, lead: Name, d: Name, rest: Name) returns (j: nat)
    requires i <= |s| && s[i..] == lead + (d + rest) && (lead == [] || lead == [32])
    requires rest != [] ==> rest[0] == 32
    ensures i <= j <= |s| && s[j..] == rest && s[i..j] == lead + d
    ensures s[i..j] == d || s[i..j] == [32] + d
    ensures (j < |s| ==> !IsDigit(s[j])) && (j == |s| <==> rest == [])
  {
    j := i + |lead| + |d|;
    assert s[i..j] == s[i..][..j - i] == lead + d;
    assert s[j..] == s[i..][j - i..] == rest;
    assert [] + d == d;
    if rest != [] {
      assert s[j] == s[j..][0];
    }
  }

  lemma TypedHead(vs: seq<uint32>, s: Name, i: nat) returns (j: nat)
    requires vs != [] && i <= |s| && (s[i..] == Typed(vs) || s[i..] == [32] + Typed(vs))
    ensures i < j <= |s| && Strtol(s, i) == (vs[0], j)
    ensures if |vs| == 1 then j == |s| else j < |s| && s[j..] == [32] + Typed(vs[1..])
  {
    var lead := if s[i..] == Typed(vs) then [] else [32];
    var rest := if |vs| == 1 then [] else [32] + Typed(vs[1..]);
    hide Typed, Decimal, Strtol;
    j := SplitTyped(s, i, lead, Decimal(vs[0]), rest);
    StrtolDecimal(vs[0], s, i, j);
  }

  lemma {:induction false} TypedFrom(vs: seq<uint32>, s: Name, i: nat)
    requires vs != [] && i <= |s| && (s[i..] == Typed(vs) || s[i..] == [32] + Typed(vs))
    ensures Numbers(s, i) == Some(vs)
    decreases |vs|
  {
    hide Typed, Strtol;
    var j := TypedHead(vs, s, i);
    assert vs[0] % TWO_32 == vs[0];
    if |vs| > 1 {
      TypedFrom(vs[1..], s, j);
      assert [vs[0]] + vs[1..] == vs;
    } else {
      assert [vs[0]] == vs;
    }
  }

  // Any nonempty list of 32-bit numbers, typed in decimal with single blanks, is what the
  // server unpacks.
  lemma TypedRoundTrip(vs: seq<uint32>)
    requires vs != []
    ensures Numbers(Typed(vs), 0) == Some(vs)
    ensures Unpack(Pack(vs)) == vs
  {
    assert Typed(vs)[0..] == Typed(vs);
    TypedFrom(vs, Typed(vs), 0);
    PackRoundTrip(vs, []);
    assert Pack(vs) + [] == Pack(vs);
  }
}
