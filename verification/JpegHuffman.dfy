// Canonical Huffman tables: the writer's code assignment, and the bit-serial decoder of ITU-T T.81
// (section C.2, and figures F.15 and F.16 of section F.2.2.3).
module JpegHuffman {
  import opened Common
  import opened JpegBits

  datatype Code = Code(value: nat, len: nat)

  // bits[i - 1] is the number of codes of length i. The code value at which length i starts (the writer's
  // `code` when it begins that length; MINCODE of figure F.15).
  function First(bits: seq<nat>, i: nat): nat
    requires 1 <= i <= |bits| + 1
  {
    if i == 1 then 0 else 2 * (First(bits, i - 1) + bits[i - 2])
  }

  // How many codes are shorter than i (VALPTR of figure F.15).
  function Ptr(bits: seq<nat>, i: nat): nat
    requires 1 <= i <= |bits| + 1
  {
    if i == 1 then 0 else Ptr(bits, i - 1) + bits[i - 2]
  }

  // Every (code, length) shorter than i, in order.
  function CodeList(bits: seq<nat>, i: nat): (list: seq<Code>)
    requires 1 <= i <= |bits| + 1
    ensures |list| == Ptr(bits, i)
  {
    if i == 1 then []
    else CodeList(bits, i - 1) + seq(bits[i - 2], j requires 0 <= j => Code(First(bits, i - 1) + j, i - 1))
  }

  // out[vals[k]] = codes[k] for k = 0, 1, ..., n - 1.
  function Assign(vals: seq<nat>, codes: seq<Code>, n: nat): map<nat, Code>
    requires n <= |vals| && n <= |codes|
  {
    if n == 0 then map[] else Assign(vals, codes, n - 1)[vals[n - 1] := codes[n - 1]]
  }

  // The writer's loop.
  method Codes(bits: seq<nat>, vals: seq<nat>) returns (out: map<nat, Code>)
    requires |bits| == 16 && Ptr(bits, 17) <= |vals|
    ensures out == Assign(vals, CodeList(bits, 17), Ptr(bits, 17))
  {
    var code, k := 0, 0;
    out := map[];
    ghost var list := CodeList(bits, 17);
    for ln := 1 to 17
      invariant code == First(bits, ln) && k == Ptr(bits, ln) <= Ptr(bits, 17) && out == Assign(vals, list, k)
    {
      PtrMono(bits, ln + 1, 17);
      for j := 0 to bits[ln - 1]
        invariant code == First(bits, ln) + j && k == Ptr(bits, ln) + j <= Ptr(bits, 17) && out == Assign(vals, list, k)
      {
        CodeListAt(bits, ln, j, 17);
        out := out[vals[k] := Code(code, ln)];
        code := code + 1;
        k := k + 1;
      }
      code := 2 * code;
    }
  }

  lemma {:induction false} PtrMono(bits: seq<nat>, i: nat, i': nat)
    requires 1 <= i <= i' <= |bits| + 1
    ensures Ptr(bits, i) <= Ptr(bits, i')
    decreases i'
  {
    if i < i' {
      PtrMono(bits, i, i' - 1);
    }
  }

  // Code j of length i sits at its place in the list.
  lemma {:induction false} CodeListAt(bits: seq<nat>, i: nat, j: nat, upTo: nat)
    requires 1 <= i < upTo <= |bits| + 1 && j < bits[i - 1]
    ensures Ptr(bits, i) + j < Ptr(bits, upTo) && CodeList(bits, upTo)[Ptr(bits, i) + j] == Code(First(bits, i) + j, i)
    decreases upTo
  {
    if i < upTo - 1 {
      CodeListAt(bits, i, j, upTo - 1);
    }
  }

  // Where the k-th code of the list comes from.
  lemma {:induction false} SlotOf(bits: seq<nat>, k: nat, upTo: nat) returns (i: nat, j: nat)
    requires 1 <= upTo <= |bits| + 1 && k < Ptr(bits, upTo)
    ensures 1 <= i < upTo && j < bits[i - 1] && k == Ptr(bits, i) + j
    ensures CodeList(bits, upTo)[k] == Code(First(bits, i) + j, i)
    decreases upTo
  {
    if k < Ptr(bits, upTo - 1) {
      i, j := SlotOf(bits, k, upTo - 1);
    } else {
      i, j := upTo - 1, k - Ptr(bits, upTo - 1);
    }
  }

  // The codes of one length fit that length.
  ghost predicate FitsAt(bits: seq<nat>, i: nat)
    requires 1 <= i <= |bits|
  {
    bits[i - 1] > 0 ==> First(bits, i) + bits[i - 1] <= Pow2(i)
  }

  ghost predicate Fits(bits: seq<nat>) {
    forall i :: 1 <= i <= |bits| ==> FitsAt(bits, i)
  }

  // v << n
  function Shift(v: nat, n: nat): nat {
    if n == 0 then v else 2 * Shift(v, n - 1)
  }

  lemma {:induction false} ShiftIsTimes(v: nat, n: nat)
    ensures Shift(v, n) == v * Pow2(n)
  {
    if n > 0 {
      ShiftIsTimes(v, n - 1);
      Double(v, Pow2(n - 1));
    }
  }

  lemma {:induction false} Double(p: nat, x: nat)
    ensures 2 * (p * x) == p * (2 * x)
  {
  }

  // Appending bit b to the shifted value.
  lemma {:induction false} ShiftOne(p: nat, b: nat, n: nat)
    requires b <= 1
    ensures Shift(2 * p + b, n) == Shift(p, n + 1) + if b == 1 then Pow2(n) else 0
  {
    if n == 0 {
      assert Shift(p, 1) == 2 * Shift(p, 0);
    } else {
      ShiftOne(p, b, n - 1);
    }
  }

  lemma {:induction false} ShiftMono(p: nat, top: nat, n: nat)
    requires p < top
    ensures Shift(p, n) + Pow2(n) <= Shift(top, n)
  {
    if n > 0 { ShiftMono(p, top, n - 1); }
  }

  // Everything of length i' starts past everything of length i < i', once aligned.
  lemma {:induction false} Growth(bits: seq<nat>, i: nat, i': nat)
    requires 1 <= i < i' <= |bits|
    ensures First(bits, i') >= Shift(First(bits, i) + bits[i - 1], i' - i)
    decreases i'
  {
    if i' == i + 1 {
      assert Shift(First(bits, i) + bits[i - 1], 1) == 2 * Shift(First(bits, i) + bits[i - 1], 0);
    } else {
      Growth(bits, i, i' - 1);
    }
  }

  // Section C.2's own recurrence: code values count up by one, and shift left by the growth in length.
  lemma {:induction false} CanonicalOrder(bits: seq<nat>, k: nat)
    requires k + 1 < Ptr(bits, |bits| + 1)
    ensures var a, b := CodeList(bits, |bits| + 1)[k], CodeList(bits, |bits| + 1)[k + 1];
            a.len <= b.len && b.value == (a.value + 1) * Pow2(b.len - a.len)
  {
    var i, j := SlotOf(bits, k, |bits| + 1);
    var i', j' := SlotOf(bits, k + 1, |bits| + 1);
    if i' < i {
      PtrMono(bits, i' + 1, i);
    }
    if i < i' {
      PtrMono(bits, i + 1, i');
      EmptyBetween(bits, i, i');
      ShiftIsTimes(First(bits, i) + bits[i - 1], i' - i);
    }
  }

  // With no codes of the lengths between, the start values only shift.
  lemma {:induction false} EmptyBetween(bits: seq<nat>, i: nat, i': nat)
    requires 1 <= i < i' <= |bits| && Ptr(bits, i') == Ptr(bits, i + 1)
    ensures First(bits, i') == Shift(First(bits, i) + bits[i - 1], i' - i)
    decreases i'
  {
    if i' == i + 1 {
      assert Shift(First(bits, i) + bits[i - 1], 1) == 2 * Shift(First(bits, i) + bits[i - 1], 0);
    } else {
      PtrMono(bits, i + 1, i' - 1);
      EmptyBetween(bits, i, i' - 1);
    }
  }

  // ---------- decoding ----------

  function MaxCode(bits: seq<nat>, i: nat): int
    requires 1 <= i <= |bits|
  {
    if bits[i - 1] == 0 then -1 else First(bits, i) + bits[i - 1] - 1
  }

  // DECODE: i bits read so far, with value `code`; the symbol and the rest of the stream.
  function DecodeFrom(bits: seq<nat>, vals: seq<nat>, i: nat, code: nat, s: seq<bool>): (r: Option<(nat, seq<bool>)>)
    requires 1 <= i <= |bits| && code >= First(bits, i) && Ptr(bits, |bits| + 1) <= |vals|
    ensures r.Some? ==> |r.value.1| <= |s|
    decreases |bits| - i
  {
    if code > MaxCode(bits, i) then
      if i == |bits| || s == [] then None
      else DecodeFrom(bits, vals, i + 1, 2 * code + (if s[0] then 1 else 0), s[1..])
    else
      CodeListAt(bits, i, code - First(bits, i), |bits| + 1);
      Some((vals[Ptr(bits, i) + code - First(bits, i)], s))
  }

  function Decode(bits: seq<nat>, vals: seq<nat>, s: seq<bool>): (r: Option<(nat, seq<bool>)>)
    requires |bits| >= 1 && Ptr(bits, |bits| + 1) <= |vals|
    ensures r.Some? ==> |r.value.1| < |s|
  {
    if s == [] then None else DecodeFrom(bits, vals, 1, if s[0] then 1 else 0, s[1..])
  }

  // The top bit of a string of bits.
  lemma {:induction false} TopBit(q: nat, n: nat) returns (b: nat, q': nat)
    requires n >= 1 && q < Pow2(n)
    ensures b <= 1 && q' < Pow2(n - 1) && q == (if b == 1 then Pow2(n - 1) else 0) + q'
    ensures BitsOf(q, n) == [b == 1] + BitsOf(q', n - 1)
  {
    var p := Pow2(n - 1);
    b, q' := if q < p then 0 else 1, if q < p then q else q - p;
    BitsOfConcat(b, q', 1, n - 1);
    assert BitsOf(b, 1) == BitsOf(b / 2, 0) + [b % 2 == 1];
    assert BitsOf(b / 2, 0) == [];
    assert 1 + (n - 1) == n;
  }

  // Reading code j of length i from its t-th bit on.
  lemma {:induction false} DecodeTail(bits: seq<nat>, vals: seq<nat>, i: nat, j: nat, t: nat, p: nat, q: nat, rest: seq<bool>)
    requires 1 <= t <= i <= |bits| && j < bits[i - 1] && Ptr(bits, |bits| + 1) <= |vals|
    requires q < Pow2(i - t) && First(bits, i) + j == Shift(p, i - t) + q && p >= First(bits, t)
    ensures Ptr(bits, i) + j < |vals|
    ensures DecodeFrom(bits, vals, t, p, BitsOf(q, i - t) + rest) == Some((vals[Ptr(bits, i) + j], rest))
    decreases i - t
  {
    CodeListAt(bits, i, j, |bits| + 1);
    if t == i {
      assert Pow2(0) == 1 && q == 0;
      assert BitsOf(q, 0) + rest == rest;
    } else {
      PastTop(bits, i, j, t, p, q);
      var b, q' := TopBit(q, i - t);
      NextBit(p, b, q', q, i - t - 1);
      DecodeTail(bits, vals, i, j, t + 1, 2 * p + b, q', rest);
      ReadOn(bits, vals, t, p, b, BitsOf(q, i - t), BitsOf(q', i - t - 1), rest);
    }
  }

  // Past the codes of length t, DECODE takes one more bit.
  lemma {:induction false} ReadOn(bits: seq<nat>, vals: seq<nat>, t: nat, p: nat, b: nat, s: seq<bool>, s': seq<bool>, rest: seq<bool>)
    requires 1 <= t < |bits| && p >= First(bits, t) + bits[t - 1] && Ptr(bits, |bits| + 1) <= |vals|
    requires b <= 1 && s == [b == 1] + s'
    ensures 2 * p + b >= First(bits, t + 1)
    ensures DecodeFrom(bits, vals, t, p, s + rest) == DecodeFrom(bits, vals, t + 1, 2 * p + b, s' + rest)
  {
    assert (s + rest)[0] == (b == 1) && (s + rest)[1..] == s' + rest;
  }

  // Short of length i, what has been read lies past the codes of length t.
  lemma {:induction false} PastTop(bits: seq<nat>, i: nat, j: nat, t: nat, p: nat, q: nat)
    requires 1 <= t < i <= |bits| && q < Pow2(i - t) && First(bits, i) + j == Shift(p, i - t) + q
    ensures p >= First(bits, t) + bits[t - 1]
  {
    Growth(bits, t, i);
    if p < First(bits, t) + bits[t - 1] {
      ShiftMono(p, First(bits, t) + bits[t - 1], i - t);
    }
  }

  lemma {:induction false} NextBit(p: nat, b: nat, q': nat, q: nat, n: nat)
    requires b <= 1 && q == (if b == 1 then Pow2(n) else 0) + q'
    ensures Shift(2 * p + b, n) + q' == Shift(p, n + 1) + q
  {
    ShiftOne(p, b, n);
  }

  lemma {:induction false} ShiftZero(n: nat)
    ensures Shift(0, n) == 0
  {
    if n > 0 { ShiftZero(n - 1); }
  }

  // Bit-serial decoding returns the symbol of the code that was written, and nothing more of the stream.
  lemma {:induction false} DecodeCode(bits: seq<nat>, vals: seq<nat>, i: nat, j: nat, rest: seq<bool>)
    requires 1 <= i <= |bits| && j < bits[i - 1] && FitsAt(bits, i) && Ptr(bits, |bits| + 1) <= |vals|
    ensures Ptr(bits, i) + j < |vals|
    ensures Decode(bits, vals, BitsOf(First(bits, i) + j, i) + rest) == Some((vals[Ptr(bits, i) + j], rest))
  {
    var x := First(bits, i) + j;
    var b, q := TopBit(x, i);
    var s := BitsOf(x, i) + rest;
    assert s[0] == (b == 1) && s[1..] == BitsOf(q, i - 1) + rest;
    NextBit(0, b, q, x, i - 1);
    ShiftZero(i);
    DecodeTail(bits, vals, i, j, 1, b, q, rest);
  }

  // ---------- prefix-freeness ----------

  ghost predicate IsPrefix(a: Code, b: Code) { BitsOf(a.value, a.len) <= BitsOf(b.value, b.len) }

  // No codeword, as the bits that are written (masked to its length), begins another.
  ghost predicate PrefixFree(list: seq<Code>) {
    forall a, b :: 0 <= a < |list| && 0 <= b < |list| && a != b ==> !IsPrefix(list[a], list[b])
  }

  // The k-th code decodes to the k-th symbol.
  lemma {:induction false} DecodeKth(bits: seq<nat>, vals: seq<nat>, k: nat, rest: seq<bool>)
    requires |bits| >= 1 && Fits(bits) && k < Ptr(bits, |bits| + 1) <= |vals|
    ensures var c := CodeList(bits, |bits| + 1)[k];
            Decode(bits, vals, BitsOf(c.value, c.len) + rest) == Some((vals[k], rest))
  {
    var i, j := SlotOf(bits, k, |bits| + 1);
    assert FitsAt(bits, i);
    DecodeCode(bits, vals, i, j, rest);
  }

  // Bits that begin with the k-th code decode to symbol k of the identity table.
  lemma {:induction false} DecodesTo(bits: seq<nat>, k: nat, y: seq<bool>)
    requires |bits| >= 1 && Fits(bits) && k < Ptr(bits, |bits| + 1)
    requires var c := CodeList(bits, |bits| + 1)[k]; BitsOf(c.value, c.len) <= y
    ensures var r := Decode(bits, UpTo(Ptr(bits, |bits| + 1)), y); r.Some? && r.value.0 == k
  {
    var c := CodeList(bits, |bits| + 1)[k];
    var x := BitsOf(c.value, c.len);
    assert y == x + y[|x|..];
    DecodeKth(bits, UpTo(Ptr(bits, |bits| + 1)), k, y[|x|..]);
  }

  // A prefix of the written bits decodes to its own symbol, so two different codes cannot be nested.
  lemma {:induction false} NotNested(bits: seq<nat>, a: nat, b: nat)
    requires |bits| >= 1 && Fits(bits) && a < Ptr(bits, |bits| + 1) && b < Ptr(bits, |bits| + 1) && a != b
    ensures !IsPrefix(CodeList(bits, |bits| + 1)[a], CodeList(bits, |bits| + 1)[b])
  {
    var list := CodeList(bits, |bits| + 1);
    if IsPrefix(list[a], list[b]) {
      var y := BitsOf(list[b].value, list[b].len);
      DecodesTo(bits, a, y);
      DecodesTo(bits, b, y);
    }
  }

  lemma {:induction false} FitsMeansPrefixFree(bits: seq<nat>)
    requires |bits| >= 1 && Fits(bits)
    ensures PrefixFree(CodeList(bits, |bits| + 1))
  {
    var list := CodeList(bits, |bits| + 1);
    forall a, b | 0 <= a < |list| && 0 <= b < |list| && a != b ensures !IsPrefix(list[a], list[b]) {
      NotNested(bits, a, b);
    }
  }

  // The first length whose codes overflow starts its overflow at exactly 2^i: written, it is i zeros, and
  // the very first code, also zeros, begins it.
  lemma {:induction false} LeastOverflow(bits: seq<nat>, i: nat) returns (least: nat)
    requires 1 <= i <= |bits| && !FitsAt(bits, i)
    ensures 1 <= least <= |bits| && !FitsAt(bits, least) && forall t :: 1 <= t < least ==> FitsAt(bits, t)
  {
    if t :| 1 <= t < i && !FitsAt(bits, t) {
      least := LeastOverflow(bits, t);
    } else {
      least := i;
    }
  }

  lemma {:induction false} FirstFits(bits: seq<nat>, i: nat)
    requires 1 <= i <= |bits| && forall t :: 1 <= t < i ==> FitsAt(bits, t)
    ensures First(bits, i) <= Pow2(i)
  {
    if i > 1 {
      FirstFits(bits, i - 1);
      assert FitsAt(bits, i - 1);
    }
  }

  lemma {:induction false} FirstZero(bits: seq<nat>, i: nat)
    requires 1 <= i <= |bits| && Ptr(bits, i) == 0
    ensures First(bits, i) == 0
  {
    if i > 1 {
      FirstZero(bits, i - 1);
    }
  }

  lemma {:induction false} ZeroBits(i: nat)
    ensures BitsOf(Pow2(i), i) == BitsOf(0, i)
  {
    BitsOfLow(Pow2(i), 1, 0, i);
  }

  lemma {:induction false} ZeroPrefix(i: nat, i': nat)
    requires i <= i'
    ensures BitsOf(0, i) <= BitsOf(0, i')
    decreases i'
  {
    if i < i' {
      ZeroPrefix(i, i' - 1);
      assert BitsOf(0, i') == BitsOf(0, i' - 1) + [false];
    }
  }

  lemma {:induction false} OverflowMeansNotPrefixFree(bits: seq<nat>)
    requires !Fits(bits)
    ensures !PrefixFree(CodeList(bits, |bits| + 1))
  {
    var i :| 1 <= i <= |bits| && !FitsAt(bits, i);
    i := LeastOverflow(bits, i);
    FirstFits(bits, i);
    var list := CodeList(bits, |bits| + 1);
    var j := Pow2(i) - First(bits, i);
    CodeListAt(bits, i, j, |bits| + 1);
    var b := Ptr(bits, i) + j;
    ZeroBits(i);
    var i0, j0 := SlotOf(bits, 0, |bits| + 1);
    FirstZero(bits, i0);
    if b == 0 {
      FirstZero(bits, i);
      assert false;
    }
    PtrMono(bits, i0 + 1, |bits| + 1);
    if i < i0 {
      PtrMono(bits, i + 1, i0);
      assert false;
    }
    ZeroPrefix(i0, i);
    assert IsPrefix(list[0], list[b]);
  }

  // The written code is prefix-free exactly when the canonical values fit their lengths.
  lemma {:induction false} PrefixFreeIffFits(bits: seq<nat>)
    requires |bits| >= 1
    ensures PrefixFree(CodeList(bits, |bits| + 1)) <==> Fits(bits)
  {
    if Fits(bits) {
      FitsMeansPrefixFree(bits);
    } else {
      OverflowMeansNotPrefixFree(bits);
    }
  }

  // ---------- tables ----------

  // A table as the writer defines it: sixteen counts and the symbols in code order.
  datatype Table = Table(bits: seq<nat>, vals: seq<nat>)
  {
    ghost predicate Valid() {
      |bits| == 16 && Ptr(bits, 17) == |vals| && Fits(bits)
      && forall a, b :: 0 <= a < b < |vals| ==> vals[a] != vals[b]
    }

    function CodeMap(): map<nat, Code>
      requires |bits| == 16 && Ptr(bits, 17) == |vals|
    {
      Assign(vals, CodeList(bits, 17), |vals|)
    }

    // The bits written for symbol s.
    ghost function CodeOf(s: nat): seq<bool>
      requires Valid() && s in vals
    {
      AssignKeys(vals, CodeList(bits, 17), |vals|);
      var c := CodeMap()[s];
      BitsOf(c.value, c.len)
    }

    function DecodeSymbol(s: seq<bool>): (r: Option<(nat, seq<bool>)>)
      requires |bits| == 16 && Ptr(bits, 17) == |vals|
      ensures r.Some? ==> |r.value.1| < |s|
    {
      Decode(bits, vals, s)
    }

    // One codeword per symbol, read back bit by bit.
    lemma {:induction false} SymbolRoundTrip(s: nat, rest: seq<bool>)
      requires Valid() && s in vals
      ensures DecodeSymbol(CodeOf(s) + rest) == Some((s, rest))
    {
      var k :| 0 <= k < |vals| && vals[k] == s;
      AssignAt(vals, CodeList(bits, 17), |vals|, k);
      DecodeKth(bits, vals, k, rest);
    }
  }

  lemma {:induction false} AssignKeys(vals: seq<nat>, codes: seq<Code>, n: nat)
    requires n <= |vals| && n <= |codes|
    ensures forall s :: s in Assign(vals, codes, n) <==> s in vals[..n]
  {
    if n > 0 {
      AssignKeys(vals, codes, n - 1);
      assert vals[..n] == vals[..n - 1] + [vals[n - 1]];
    }
  }

  lemma {:induction false} AssignAt(vals: seq<nat>, codes: seq<Code>, n: nat, k: nat)
    requires k < n <= |vals| && n <= |codes| && forall a, b :: 0 <= a < b < |vals| ==> vals[a] != vals[b]
    ensures vals[k] in Assign(vals, codes, n) && Assign(vals, codes, n)[vals[k]] == codes[k]
  {
    if k < n - 1 {
      AssignAt(vals, codes, n - 1, k);
    }
  }

  // The three tables of the script: DC symbols 0..15 on 5 bits; AC symbols 0x00..0xFE on 8 bits and 0xFF on
  // 9; lossless categories 0..16 on 5 bits.
  const DC: Table := Table([0, 0, 0, 0, 16, 0, 0, 0, 0, 0, 0, 0, 0, 0, 0, 0], UpTo(16))
  const AC: Table := Table([0, 0, 0, 0, 0, 0, 0, 255, 1, 0, 0, 0, 0, 0, 0, 0], UpTo(256))
  const LL: Table := Table([0, 0, 0, 0, 17, 0, 0, 0, 0, 0, 0, 0, 0, 0, 0, 0], UpTo(17))

  function UpTo(n: nat): (s: seq<nat>)
    ensures |s| == n && forall i :: 0 <= i < n ==> s[i] == i
  {
    seq(n, i requires 0 <= i => i)
  }

  // Sixteen counts, all zero but those of lengths a and a + 1.
  lemma {:induction false} TwoLengths(bits: seq<nat>, a: nat)
    requires |bits| == 16 && 1 <= a < 16
    requires forall i :: 0 <= i < 16 && i != a - 1 && i != a ==> bits[i] == 0
    requires bits[a - 1] <= Pow2(a) && 2 * bits[a - 1] + bits[a] <= Pow2(a + 1)
    ensures Ptr(bits, 17) == bits[a - 1] + bits[a] && Fits(bits)
  {
    TwoLengthsAt(bits, a, 17);
    forall i | 1 <= i <= 16 ensures FitsAt(bits, i) {
      TwoLengthsAt(bits, a, i);
    }
  }

  lemma {:induction false} TwoLengthsAt(bits: seq<nat>, a: nat, i: nat)
    requires |bits| == 16 && 1 <= a < 16 && 1 <= i <= 17
    requires forall i :: 0 <= i < 16 && i != a - 1 && i != a ==> bits[i] == 0
    ensures i <= a ==> First(bits, i) == 0 && Ptr(bits, i) == 0
    ensures i == a + 1 ==> First(bits, i) == 2 * bits[a - 1] && Ptr(bits, i) == bits[a - 1]
    ensures i > a + 1 ==> Ptr(bits, i) == bits[a - 1] + bits[a]
  {
    if i > 1 {
      TwoLengthsAt(bits, a, i - 1);
    }
  }

  lemma {:induction false} SmallPowers()
    ensures Pow2(5) == 32 && Pow2(6) == 64 && Pow2(8) == 256 && Pow2(9) == 512
  {
    assert Pow2(3) == 8;
    assert Pow2(5) == 32;
    assert Pow2(7) == 128;
  }

  lemma {:induction false} TablesValid()
    ensures DC.Valid() && AC.Valid() && LL.Valid()
  {
    SmallPowers();
    TwoLengths(DC.bits, 5);
    TwoLengths(AC.bits, 8);
    TwoLengths(LL.bits, 5);
  }
}
