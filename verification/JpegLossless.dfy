// The lossless writer, and the decoder of ITU-T T.81 annex H that undoes it.
module JpegLossless {
  import opened Common
  import opened JpegBits
  import opened JpegHuffman
  import opened JpegValues
  import opened JpegBlock
  import opened JpegScan
  import opened JpegUnits

  // Sample (row, col) of component c, after the point transform.
  type Samples = map<Ref, int>

  // Table H.1; >> floors.
  function Predict(psv: nat, ra: int, rb: int, rc: int): int
    requires 1 <= psv <= 7
  {
    match psv
    case 1 => ra
    case 2 => rb
    case 3 => rc
    case 4 => ra + rb - rc
    case 5 => ra + (rb - rc) / 2
    case 6 => rb + (ra - rc) / 2
    case _ => (ra + rb) / 2
  }

  function Left(r: Ref): Ref
    requires r.col > 0
  {
    r.(col := r.col - 1)
  }

  function Above(r: Ref): Ref
    requires r.row > 0
  {
    r.(row := r.row - 1)
  }

  // The neighbours a prediction reads, when the restart interval starts at row fr.
  function Needs(r: Ref, fr: nat): set<Ref>
    requires fr <= r.row
  {
    if r.row == fr then if r.col == 0 then {} else {Left(r)}
    else if r.col == 0 then {Above(r)}
    else {Left(r), Above(r), Left(Above(r))}
  }

  // Section H.1.2.1.
  function Prediction(psv: nat, start: int, fr: nat, r: Ref, m: Samples): int
    requires 1 <= psv <= 7 && fr <= r.row && Needs(r, fr) <= m.Keys
  {
    if r.row == fr then if r.col == 0 then start else m[Left(r)]
    else if r.col == 0 then m[Above(r)]
    else Predict(psv, m[Left(r)], m[Above(r)], m[Left(Above(r))])
  }

  // (sample - pred) & 0xFFFF, as a signed 16-bit number.
  function Difference(sample: int, pred: int): (d: int)
    ensures -0x8000 <= d < 0x8000
  {
    var d := (sample - pred) % 0x1_0000;
    if d >= 0x8000 then d - 0x1_0000 else d
  }

  // Section H.2: undifferencing is modulo 2^16.
  function Undifference(pred: int, d: int): int { (pred + d) % 0x1_0000 }

  // ---------- one difference ----------

  ghost function DiffBits(t: Table, d: int): seq<bool>
    requires Covers(t, 17) && Category(d) <= 16
  {
    t.CodeOf(Category(d)) + if Category(d) == 16 then [] else ExtraBits(d)
  }

  function DecodeDifference(t: Table, s: seq<bool>): (r: Option<(int, seq<bool>)>)
    requires |t.bits| == 16 && Ptr(t.bits, 17) == |t.vals|
    ensures r.Some? ==> |r.value.1| < |s|
  {
    match t.DecodeSymbol(s)
    case None => None
    case Some((c, rest)) => if c == 16 then Some((0x8000, rest)) else ReceiveExtend(rest, c)
  }

  lemma {:induction false} Categories(d: int)
    requires -0x8000 <= d <= 0x8000
    ensures Category(d) <= 16 && (Category(d) == 16 <==> d == -0x8000 || d == 0x8000)
  {
    Powers();
    BitLengthAtMost(Abs(d), 15);
    BitLengthAtMost(Abs(d), 16);
  }

  lemma {:induction false} Powers()
    ensures Pow2(15) == 0x8000 && Pow2(16) == 0x1_0000
  {
    SmallPowers();
    assert Pow2(11) == 2048 by { assert Pow2(10) == 1024; }
    assert Pow2(13) == 8192 by { assert Pow2(12) == 4096; }
    assert Pow2(15) == 0x8000 by { assert Pow2(14) == 16384; }
  }

  // The writer's ll_put_diff.
  method PutDiff(bw: Bits, ghost t: Table, codes: map<nat, Code>, d: int)
    requires bw.Valid() && Covers(t, 17) && codes == t.CodeMap() && -0x8000 <= d <= 0x8000
    modifies bw
    ensures bw.Valid() && bw.chunks == old(bw.chunks)
    ensures Category(d) <= 16 && bw.bits == old(bw.bits) + DiffBits(t, d)
  {
    ghost var was := bw.bits;
    Categories(d);
    CategoryZero(d);
    var c := Category(d);
    PutSymbol(bw, t, codes, c);
    ghost var code := t.CodeOf(c);
    if 0 < c < 16 {
      PutExtra(bw, d);
      ConcatAssoc(was, code, ExtraBits(d));
    } else {
      assert code + [] == code;
    }
  }

  // A difference is read back as itself, except that -2^15 and 2^15 share category 16, which has no extra bits:
  // both come back as 2^15, the same number modulo 2^16.
  lemma {:induction false} DifferenceRoundTrip(t: Table, d: int, s: seq<bool>)
    requires Covers(t, 17) && -0x8000 <= d <= 0x8000
    ensures Category(d) <= 16
    ensures DecodeDifference(t, DiffBits(t, d) + s) == Some((if d == -0x8000 then 0x8000 else d, s))
  {
    Categories(d);
    var c := Category(d);
    var extra := if c == 16 then [] else ExtraBits(d);
    ConcatAssoc(t.CodeOf(c), extra, s);
    t.SymbolRoundTrip(c, extra + s);
    if c == 16 {
      assert extra + s == s;
    } else {
      ValueRoundTrip(d, s);
    }
  }

  lemma {:induction false} UndifferenceDifference(sample: int, pred: int, d: int)
    requires 0 <= sample < 0x1_0000 && d == Difference(sample, pred)
    ensures Undifference(pred, if d == -0x8000 then 0x8000 else d) == sample
  {
  }

  // ---------- a run of samples ----------

  // What one scan fixes: the predictor, the first prediction, the image.
  datatype Image = Image(psv: nat, start: int, planes: Samples)
  {
    ghost predicate Valid() { 1 <= psv <= 7 && forall r :: r in planes ==> 0 <= planes[r] < 0x1_0000 }
  }

  // 1 << max(P - Pt - 1, 0)
  function Start(precision: nat, pt: nat): nat {
    if precision - pt - 1 >= 0 then Pow2(precision - pt - 1) else 1
  }

  type Rows = map<nat, nat>

  ghost function Elems(refs: seq<Ref>): set<Ref> { set q | q in refs }

  // Each sample's neighbours come before it: they are in `seen` or earlier in the list.
  ghost predicate Causal(seen: set<Ref>, refs: seq<Ref>, first: Rows) {
    refs != [] ==>
      var before, r := refs[..|refs| - 1], refs[|refs| - 1];
      Causal(seen, before, first) && r.c in first && first[r.c] <= r.row
      && Needs(r, first[r.c]) <= seen + Elems(before)
  }

  ghost predicate Coverable(im: Image, first: Rows, r: Ref) {
    im.Valid() && r in im.planes && r.c in first && first[r.c] <= r.row && Needs(r, first[r.c]) <= im.planes.Keys
  }

  ghost predicate AllCoverable(im: Image, first: Rows, refs: seq<Ref>) {
    forall r :: r in refs ==> Coverable(im, first, r)
  }

  function DiffOf(im: Image, first: Rows, r: Ref): (d: int)
    requires Coverable(im, first, r)
    ensures -0x8000 <= d < 0x8000
  {
    Difference(im.planes[r], Prediction(im.psv, im.start, first[r.c], r, im.planes))
  }

  ghost function SamplesBits(t: Table, im: Image, first: Rows, refs: seq<Ref>): seq<bool>
    requires Covers(t, 17) && AllCoverable(im, first, refs)
  {
    if refs == [] then []
    else
      var r := refs[|refs| - 1];
      Categories(DiffOf(im, first, r));
      SamplesBits(t, im, first, refs[..|refs| - 1]) + DiffBits(t, DiffOf(im, first, r))
  }

  // Samples refs[k], refs[k + 1], ...: decode the difference, predict from what is decoded, add modulo 2^16.
  function DecodeSamples(t: Table, s: seq<bool>, psv: nat, start: int, first: Rows, refs: seq<Ref>, k: nat, m: Samples)
    : (r: Option<(Samples, seq<bool>)>)
    requires |t.bits| == 16 && Ptr(t.bits, 17) == |t.vals| && 1 <= psv <= 7 && k <= |refs|
    decreases |refs| - k
  {
    if k == |refs| then Some((m, s))
    else
      match DecodeDifference(t, s)
      case None => None
      case Some((d, rest)) =>
        var r := refs[k];
        if r.c !in first || first[r.c] > r.row || !(Needs(r, first[r.c]) <= m.Keys) then None
        else
          var pred := Prediction(psv, start, first[r.c], r, m);
          DecodeSamples(t, rest, psv, start, first, refs, k + 1, m[r := Undifference(pred, d)])
  }

  ghost predicate PartOf(m: Samples, planes: Samples) { forall r :: r in m ==> r in planes && m[r] == planes[r] }

  ghost function Add(m: Samples, refs: seq<Ref>, planes: Samples): (m': Samples)
    requires forall r :: r in refs ==> r in planes
    ensures m'.Keys == m.Keys + Elems(refs)
    ensures PartOf(m, planes) ==> PartOf(m', planes)
  {
    m + map r | r in refs :: planes[r]
  }

  lemma {:induction false} AddStep(m: Samples, before: seq<Ref>, r: Ref, planes: Samples)
    requires r in planes && forall q :: q in before ==> q in planes
    ensures forall q :: q in before + [r] ==> q in planes
    ensures Add(m, before, planes)[r := planes[r]] == Add(m, before + [r], planes)
  {
    var a, b := Add(m, before, planes)[r := planes[r]], Add(m, before + [r], planes);
    forall q ensures q in a <==> q in b {
      assert q in before + [r] <==> q in before || q == r;
    }
  }

  lemma {:induction false} SamplesRoundTripStep(t: Table, im: Image, first: Rows, refs: seq<Ref>, k: nat, m: Samples, s: seq<bool>)
    requires Covers(t, 17) && k < |refs| && Coverable(im, first, refs[k]) && PartOf(m, im.planes)
    requires Needs(refs[k], first[refs[k].c]) <= m.Keys
    ensures Category(DiffOf(im, first, refs[k])) <= 16
    ensures DecodeSamples(t, DiffBits(t, DiffOf(im, first, refs[k])) + s, im.psv, im.start, first, refs, k, m) ==
            DecodeSamples(t, s, im.psv, im.start, first, refs, k + 1, m[refs[k] := im.planes[refs[k]]])
  {
    var r, d := refs[k], DiffOf(im, first, refs[k]);
    DifferenceRoundTrip(t, d, s);
    var pred := Prediction(im.psv, im.start, first[r.c], r, im.planes);
    assert Prediction(im.psv, im.start, first[r.c], r, m) == pred;
    UndifferenceDifference(im.planes[r], pred, d);
  }

  lemma {:induction false} SamplesRoundTrip(t: Table, im: Image, first: Rows, refs: seq<Ref>, k: nat, m: Samples, s: seq<bool>)
    requires Covers(t, 17) && k <= |refs| && im.Valid() && AllCoverable(im, first, refs[..k]) && PartOf(m, im.planes)
    requires Causal(m.Keys, refs[..k], first)
    ensures DecodeSamples(t, SamplesBits(t, im, first, refs[..k]) + s, im.psv, im.start, first, refs, 0, m) ==
            DecodeSamples(t, s, im.psv, im.start, first, refs, k, Add(m, refs[..k], im.planes))
  {
    if k == 0 {
      assert SamplesBits(t, im, first, refs[..0]) + s == s && Add(m, refs[..0], im.planes) == m;
    } else {
      var before, r := refs[..k - 1], refs[k - 1];
      assert refs[..k][..k - 1] == before && refs[..k] == before + [r];
      assert r in refs[..k];
      Categories(DiffOf(im, first, r));
      var bits := DiffBits(t, DiffOf(im, first, r));
      ConcatAssoc(SamplesBits(t, im, first, before), bits, s);
      SamplesRoundTrip(t, im, first, refs, k - 1, m, bits + s);
      SamplesRoundTripStep(t, im, first, refs, k - 1, Add(m, before, im.planes), s);
      AddStep(m, before, r, im.planes);
    }
  }
}
