// The error message as UTF-8 text: where src/capi.rs cuts it, no character is split.
module CapiText {
  import opened Common
  import opened CapiGuard

  // The UTF-8 form of a scalar value (RFC 3629, section 3).
  function Encode(c: nat): (s: seq<Byte>)
    requires c < 0x11_0000
    ensures s != [] && !(0x80 <= s[0] < 0xC0) && forall i :: 0 < i < |s| ==> 0x80 <= s[i] < 0xC0
  {
    if c < 0x80 then [c]
    else if c < 0x800 then [0xC0 + c / 0x40, 0x80 + c % 0x40]
    else if c < 0x1_0000 then [0xE0 + c / 0x1000, 0x80 + c / 0x40 % 0x40, 0x80 + c % 0x40]
    else [0xF0 + c / 0x4_0000, 0x80 + c / 0x1000 % 0x40, 0x80 + c / 0x40 % 0x40, 0x80 + c % 0x40]
  }

  ghost predicate Scalars(text: seq<nat>) { forall i :: 0 <= i < |text| ==> text[i] < 0x11_0000 }

  ghost function Bytes(text: seq<nat>): seq<Byte>
    requires Scalars(text)
  {
    if text == [] then [] else Bytes(text[..|text| - 1]) + Encode(text[|text| - 1])
  }

  // Byte i is where one of the characters ends, or where the text begins.
  ghost predicate Ends(text: seq<nat>, i: nat)
    requires Scalars(text)
  {
    exists k :: 0 <= k <= |text| && i == |Bytes(text[..k])|
  }

  lemma {:induction false} EndsNext(text: seq<nat>, i: nat)
    requires Scalars(text) && text != []
    ensures Ends(text, i) <==> Ends(text[..|text| - 1], i) || i == |Bytes(text)|
  {
    var n := |text| - 1;
    assert text[..|text|] == text;
    if k :| 0 <= k <= |text| && i == |Bytes(text[..k])| {
      if k <= n { assert text[..n][..k] == text[..k]; }
    }
    if k :| 0 <= k <= n && i == |Bytes(text[..n][..k])| {
      assert text[..n][..k] == text[..k];
    }
  }

  // One more character's bytes.
  lemma {:induction false} BoundaryNext(before: seq<Byte>, last: seq<Byte>, i: nat)
    requires last != [] && !(0x80 <= last[0] < 0xC0) && forall j :: 0 < j < |last| ==> 0x80 <= last[j] < 0xC0
    requires i <= |before + last|
    ensures CharBoundary(before + last, i) <==> (i <= |before| && CharBoundary(before, i)) || i == |before + last|
  {
    if |before| < i < |before + last| {
      assert (before + last)[i] == last[i - |before|];
    }
  }

  lemma {:induction false} EndsWithin(text: seq<nat>, i: nat)
    requires Scalars(text) && Ends(text, i)
    ensures i <= |Bytes(text)|
  {
    var k :| 0 <= k <= |text| && i == |Bytes(text[..k])|;
    Longer(text, k, |text|);
    assert text[..|text|] == text;
  }

  // Main: the code's test, which reads one byte, finds exactly the ends of whole characters.
  lemma {:induction false} BoundaryIff(text: seq<nat>, i: nat)
    requires Scalars(text) && i <= |Bytes(text)|
    ensures CharBoundary(Bytes(text), i) <==> Ends(text, i)
  {
    if text == [] {
      assert i == |Bytes(text[..0])|;
    } else {
      var n := |text| - 1;
      EndsNext(text, i);
      BoundaryNext(Bytes(text[..n]), Encode(text[n]), i);
      if i <= |Bytes(text[..n])| {
        BoundaryIff(text[..n], i);
      } else if Ends(text[..n], i) {
        EndsWithin(text[..n], i);
      }
    }
  }

  lemma {:induction false} Longer(text: seq<nat>, a: nat, b: nat)
    requires Scalars(text) && a <= b <= |text|
    ensures Bytes(text[..a]) <= Bytes(text[..b])
  {
    if a < b {
      Longer(text, a, b - 1);
      assert text[..b][..b - 1] == text[..b - 1];
    }
  }

  // The first k + 1 characters end past the cut only if they do not fit.
  lemma {:induction false} NextTooLong(text: seq<nat>, room: nat, end: nat, k: nat)
    requires Scalars(text) && Truncated(Bytes(text), room, end) && k < |text| && end == |Bytes(text[..k])|
    ensures |Bytes(text[..k + 1])| > room
  {
    var more := |Bytes(text[..k + 1])|;
    assert text[..k + 1][..k] == text[..k];
    assert more == end + |Encode(text[k])|;
    Longer(text, k + 1, |text|);
    assert text[..|text|] == text;
    BoundaryIff(text, more);
    assert Ends(text, more);
  }

  // Main: what is written is the longest run of whole characters that leaves room for the NUL.
  lemma {:induction false} WholeCharacters(text: seq<nat>, room: nat, end: nat) returns (k: nat)
    requires Scalars(text) && Truncated(Bytes(text), room, end)
    ensures k <= |text| && Bytes(text)[..end] == Bytes(text[..k]) && end <= room
    ensures k < |text| ==> |Bytes(text[..k + 1])| > room
  {
    BoundaryIff(text, end);
    k :| 0 <= k <= |text| && end == |Bytes(text[..k])|;
    Longer(text, k, |text|);
    assert text[..|text|] == text;
    if k < |text| { NextTooLong(text, room, end, k); }
  }
}
