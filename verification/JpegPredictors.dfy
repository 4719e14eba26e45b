// What the lossless writer predicts each sample from (ITU-T T.81, section H.1.2.1 and table H.1).
module JpegPredictors {
  import opened Common
  import opened JpegScan
  import opened JpegUnits
  import opened JpegLossless
  import opened JpegOrder
  import opened JpegLosslessScan
  import L = JpegLosslessFile

  // d, as a signed 16-bit number, is sample - p modulo 2^16.
  ghost predicate Differs(d: int, sample: int, p: int) {
    -0x8000 <= d < 0x8000 && (sample - p - d) % 0x1_0000 == 0
  }

  // p is what selection value psv makes of the neighbours; halves are taken downwards.
  ghost predicate Selected(psv: nat, p: int, left: int, above: int, upperLeft: int) {
    (psv == 1 ==> p == left)
    && (psv == 2 ==> p == above)
    && (psv == 3 ==> p == upperLeft)
    && (psv == 4 ==> p == left + above - upperLeft)
    && (psv == 5 ==> 0 <= (above - upperLeft) - 2 * (p - left) <= 1)
    && (psv == 6 ==> 0 <= (left - upperLeft) - 2 * (p - above) <= 1)
    && (psv == 7 ==> 0 <= left + above - 2 * p <= 1)
  }

  lemma {:induction false} PredictSelects(psv: nat, left: int, above: int, upperLeft: int)
    requires 1 <= psv <= 7
    ensures Selected(psv, Predict(psv, left, above, upperLeft), left, above, upperLeft)
  {
    if psv == 5 { Halved(above - upperLeft); }
    if psv == 6 { Halved(left - upperLeft); }
    if psv == 7 { Halved(left + above); }
  }

  lemma {:induction false} Halved(x: int)
    ensures 0 <= x - 2 * (x / 2) <= 1
  {
  }

  // p is what a sample is predicted from when its restart interval begins at row fr: the start value at the very first,
  // the left neighbour in the rest of that row, the one above in the first column, else what the selection value makes.
  ghost predicate PredictedFrom(im: Image, fr: nat, r: Ref, p: int) {
    var y, x, m := r.row, r.col, im.planes;
    if y <= fr then
      if x == 0 then p == im.start else Ref(r.c, y, x - 1) in m && p == m[Ref(r.c, y, x - 1)]
    else if x == 0 then Ref(r.c, y - 1, 0) in m && p == m[Ref(r.c, y - 1, 0)]
    else
      Ref(r.c, y, x - 1) in m && Ref(r.c, y - 1, x) in m && Ref(r.c, y - 1, x - 1) in m
      && Selected(im.psv, p, m[Ref(r.c, y, x - 1)], m[Ref(r.c, y - 1, x)], m[Ref(r.c, y - 1, x - 1)])
  }

  lemma {:induction false} SamplePredicted(im: Image, first: Rows, r: Ref) returns (p: int)
    requires Coverable(im, first, r)
    ensures Differs(DiffOf(im, first, r), im.planes[r], p) && PredictedFrom(im, first[r.c], r, p)
  {
    p := Prediction(im.psv, im.start, first[r.c], r, im.planes);
    assert Needs(r, first[r.c]) <= im.planes.Keys;
    if r.row > first[r.c] && r.col > 0 {
      assert Left(r) in Needs(r, first[r.c]) && Above(r) in Needs(r, first[r.c]) && Left(Above(r)) in Needs(r, first[r.c]);
      PredictSelects(im.psv, im.planes[Left(r)], im.planes[Above(r)], im.planes[Left(Above(r))]);
    }
  }

  // Main: the difference written for a sample of component i in the restart interval that begins at MCU row my0, which is
  // row my0 * v of the component.
  lemma {:induction false} DifferenceWritten(plan: Plan, my0: nat, my: nat, i: nat, r: Ref) returns (p: int)
    requires plan.Valid() && my0 <= my <= plan.mcuy && i < |plan.comps| && r.c == plan.comps[i].c && r in plan.Refs(my0, my)
    ensures Coverable(plan.im, First(plan.comps, my0), r) && my0 * plan.comps[i].v <= r.row
    ensures Differs(DiffOf(plan.im, First(plan.comps, my0), r), plan.im.planes[r], p)
    ensures PredictedFrom(plan.im, my0 * plan.comps[i].v, r, p)
  {
    SpanReady(plan.im, plan.comps, plan.mcuy, plan.mcux, my0, my);
    FirstStarts(plan.comps, my0);
    assert plan.comps[i] in plan.comps && Coverable(plan.im, First(plan.comps, my0), r);
    p := SamplePredicted(plan.im, First(plan.comps, my0), r);
  }

  lemma {:induction false} Pow2Adds(a: nat, b: nat)
    ensures Pow2(a) * Pow2(b) == Pow2(a + b)
  {
    if b == 0 {
      assert Pow2(0) == 1;
    } else {
      Pow2Adds(a, b - 1);
      assert Pow2(b) == 2 * Pow2(b - 1) && Pow2(a + b) == 2 * Pow2(a + b - 1);
    }
  }

  // Main: the start value is half the range the samples have left after the point transform, and 1 when none is left.
  lemma {:induction false} StartIsHalfRange(r: L.Request, cidx: seq<nat>)
    requires r.Scannable(cidx)
    ensures r.pt < r.precision ==> r.Plan(cidx).im.start * Pow2(r.pt + 1) == Pow2(r.precision)
    ensures r.pt >= r.precision ==> r.Plan(cidx).im.start == 1
    ensures r.Plan(cidx).im.psv == r.psv && r.Plan(cidx).im.planes == r.planes
  {
    if r.pt < r.precision { Pow2Adds(r.precision - r.pt - 1, r.pt + 1); }
  }
}
