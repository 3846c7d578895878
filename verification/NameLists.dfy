// userLinkedListToString of lib/auth.c: names written one after another into a buffer
// whose size was computed beforehand.
module NameLists {
  import opened Basics

  function TotalLength(names: seq<Name>): nat
  {
    if names == [] then 0 else |names[0]| + TotalLength(names[1..])
  }

  // The first loop: two bytes for a separator after every name, less the last two.
  function Reserved(names: seq<Name>): int
  {
    TotalLength(names) + 2 * |names| - 2
  }

  function Join(names: seq<Name>, separator: Name): Name
  {
    if names == [] then []
    else if |names| == 1 then names[0]
    else names[0] + separator + Join(names[1..], separator)
  }

  // What the second loop puts in front of a name: a separator only once something has been
  // written.
  function Lead(written: Name, separator: Name): Name
  {
    if written == [] then [] else separator
  }

  // What it writes.
  function Rendered(names: seq<Name>, separator: Name, written: Name): Name
    decreases |names|
  {
    if names == [] then written
    else Rendered(names[1..], separator, written + Lead(written, separator) + names[0])
  }

  // Writes `bytes` at `at`; the memcpy and the separator loop.
  method CopyAt(buffer: array<byte>, at: nat, bytes: Name)
    requires at + |bytes| <= buffer.Length
    modifies buffer
    ensures buffer[..at + |bytes|] == old(buffer[..at]) + bytes
  {
    var i := 0;
    while i < |bytes|
      invariant 0 <= i <= |bytes|
      invariant buffer[..at + i] == old(buffer[..at]) + bytes[..i]
    {
      buffer[at + i] := bytes[i];
      i := i + 1;
    }
  }

  // The returned count is what was reserved, not what was written. `overran` says that some
  // write, the terminating NUL included, would fall outside the reserved + 1 bytes; the
  // method stops before the name that would do so.
  method UserLinkedListToString(names: seq<Name>, separator: Name) returns (str: array?<byte>, ret: nat, overran: bool)
    ensures names == [] ==> str == null && ret == 0 && !overran
    ensures names != [] ==> ret == Reserved(names) && (overran <==> |Rendered(names, separator, [])| > ret)
    ensures names != [] && !overran ==> str != null && fresh(str) && str.Length == ret + 1
    ensures names != [] && !overran ==>
      var text := Rendered(names, separator, []);
      |text| <= ret && str[..|text|] == text && str[|text|] == 0
  {
    overran := false;
    if names == [] {
      return null, 0, false;
    }
    ret := Reserve(names);
    var buffer := new byte[ret + 1];
    ghost var text := Rendered(names, separator, []);
    var nxt: nat := 0;
    var k := 0;
    assert names[0..] == names;
    while k < |names|
      invariant 0 <= k <= |names|
      invariant nxt < buffer.Length && fresh(buffer)
      invariant Rendered(names[k..], separator, buffer[..nxt]) == text
    {
      assert names[k..][1..] == names[k + 1..];
      assert names[k..][0] == names[k];
      ghost var written := buffer[..nxt];
      var fits;
      nxt, fits := AppendName(buffer, nxt, separator, names[k]);
      RenderedGrows(names[k + 1..], separator, written + Lead(written, separator) + names[k]);
      if !fits {
        return null, ret, true;
      }
      k := k + 1;
    }
    assert names[k..] == [];
    buffer[nxt] := 0;
    str := buffer;
  }

  method Reserve(names: seq<Name>) returns (ret: nat)
    requires names != []
    ensures ret == Reserved(names)
  {
    ret := 0;
    var k := 0;
    while k < |names|
      invariant 0 <= k <= |names|
      invariant ret + TotalLength(names[k..]) + 2 * (|names| - k) == TotalLength(names) + 2 * |names|
    {
      assert names[k..][1..] == names[k + 1..];
      ret := ret + 2 + |names[k]|;
      k := k + 1;
    }
    assert names[k..] == [];
    ret := ret - 2;
  }

  // One round of the second loop; nothing is written when it would not fit.
  method AppendName(buffer: array<byte>, at: nat, separator: Name, name: Name) returns (nxt: nat, fits: bool)
    requires at < buffer.Length
    modifies buffer
    ensures var text := old(buffer[..at]) + Lead(old(buffer[..at]), separator) + name;
      && (fits <==> |text| < buffer.Length)
      && nxt < buffer.Length
      && (fits ==> nxt == |text| && buffer[..nxt] == text)
  {
    ghost var written := buffer[..at];
    nxt := at;
    var lead := if nxt != 0 then |separator| else 0;
    fits := nxt + lead + |name| < buffer.Length;
    if !fits { return; }
    if nxt != 0 {
      CopyAt(buffer, nxt, separator);
      nxt := nxt + |separator|;
    }
    assert buffer[..nxt] == written + Lead(written, separator);
    CopyAt(buffer, nxt, name);
    nxt := nxt + |name|;
  }

  lemma {:induction false} RenderedGrows(names: seq<Name>, separator: Name, written: Name)
    ensures |written| <= |Rendered(names, separator, written)|
    decreases |names|
  {
    if names != [] {
      RenderedGrows(names[1..], separator, written + Lead(written, separator) + names[0]);
    }
  }

  lemma {:induction false} JoinLength(names: seq<Name>, separator: Name)
    requires names != []
    ensures |Join(names, separator)| == TotalLength(names) + (|names| - 1) * |separator|
  {
    if |names| == 1 {
      assert TotalLength(names[1..]) == 0;
    } else {
      JoinLength(names[1..], separator);
      assert (|names| - 1) * |separator| == (|names| - 2) * |separator| + |separator|;
    }
  }

  lemma {:induction false} RenderedOnto(names: seq<Name>, separator: Name, written: Name)
    requires written != []
    ensures Rendered(names, separator, written)
         == if names == [] then written else written + separator + Join(names, separator)
    decreases |names|
  {
    if names != [] {
      var next := written + separator + names[0];
      RenderedOnto(names[1..], separator, next);
      if |names| > 1 {
        assert next + separator + Join(names[1..], separator)
            == written + separator + (names[0] + separator + Join(names[1..], separator));
      }
    }
  }

  // Leading empty names lose their separators.
  function DropEmpty(names: seq<Name>): seq<Name>
  {
    if names != [] && names[0] == [] then DropEmpty(names[1..]) else names
  }

  lemma {:induction false} RenderedIsJoin(names: seq<Name>, separator: Name)
    ensures Rendered(names, separator, []) == Join(DropEmpty(names), separator)
  {
    if names != [] {
      assert [] + [] + names[0] == names[0];
      if names[0] == [] {
        RenderedIsJoin(names[1..], separator);
      } else {
        RenderedOnto(names[1..], separator, names[0]);
      }
    }
  }

  lemma {:induction false} DropEmptyLength(names: seq<Name>)
    ensures |DropEmpty(names)| <= |names| && TotalLength(DropEmpty(names)) == TotalLength(names)
    ensures names != [] && names[0] == [] ==> |DropEmpty(names)| < |names|
  {
    if names != [] && names[0] == [] {
      DropEmptyLength(names[1..]);
    }
  }

  // The text is the names joined by the separator exactly when the first of several names
  // is not empty, or the separator is.
  lemma ExactJoinIff(names: seq<Name>, separator: Name)
    ensures Rendered(names, separator, []) == Join(names, separator)
      <==> |names| <= 1 || names[0] != [] || separator == []
  {
    RenderedIsJoin(names, separator);
    if |names| > 1 && names[0] == [] {
      if separator == [] {
        JoinNothing(names);
        JoinNothing(DropEmpty(names));
        SameText(names);
      } else {
        DroppedIsShorter(names, separator);
      }
    }
  }

  lemma DroppedIsShorter(names: seq<Name>, separator: Name)
    requires |names| > 1 && names[0] == [] && separator != []
    ensures |Join(DropEmpty(names), separator)| < |Join(names, separator)|
  {
    var kept := DropEmpty(names);
    DropEmptyLength(names);
    JoinLength(names, separator);
    if kept != [] {
      JoinLength(kept, separator);
    }
    FewerTimes(if kept == [] then 0 else |kept| - 1, |names| - 1, |separator|);
  }

  lemma FewerTimes(m: nat, n: nat, d: nat)
    requires m < n && 0 < d
    ensures m * d < n * d
  {
  }

  // n separators of d bytes fit into 2n bytes.
  lemma TwiceFits(n: nat, d: nat)
    ensures n * d <= 2 * n <==> n == 0 || d <= 2
  {
  }

  lemma {:induction false} JoinNothing(names: seq<Name>)
    ensures Join(names, []) == Flatten(names)
  {
    if names != [] {
      JoinNothing(names[1..]);
      if |names| == 1 {
        assert names[1..] == [];
      }
    }
  }

  lemma {:induction false} SameText(names: seq<Name>)
    ensures Flatten(DropEmpty(names)) == Flatten(names)
  {
    if names != [] && names[0] == [] {
      SameText(names[1..]);
    }
  }

  // The reserved space suffices exactly when the separators written, one fewer than the
  // names from the first nonempty one on, fit into two bytes for every name but one.
  lemma FitsIff(names: seq<Name>, separator: Name)
    requires names != []
    ensures |Rendered(names, separator, [])| <= Reserved(names)
      <==> |DropEmpty(names)| <= 1 || (|DropEmpty(names)| - 1) * |separator| <= 2 * (|names| - 1)
  {
    RenderedIsJoin(names, separator);
    DropEmptyLength(names);
    if DropEmpty(names) != [] {
      JoinLength(DropEmpty(names), separator);
    }
  }

  // So when the first name is not empty: one name, or a separator of at most two bytes.
  lemma ShortSeparatorFitsIff(names: seq<Name>, separator: Name)
    requires names != [] && names[0] != []
    ensures |Rendered(names, separator, [])| <= Reserved(names) <==> |names| == 1 || |separator| <= 2
  {
    FitsIff(names, separator);
    TwiceFits(|names| - 1, |separator|);
  }
}
