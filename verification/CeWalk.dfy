// The two vocabulary walks (src/cross_entropy.rs, kernels/cross_entropy.metal): no logits matrix is ever formed, and
// loss, dh and dW are those of the unchunked softmax.
module CeWalk {
  import opened Common
  import opened OnlineSoftmax
  import opened CeRow
  import L = CeLanes

  // The gathered rows, the weight, the targets, and the logit GEMM of the caller's lane.
  datatype Ce = Ce(h: seq<seq<real>>, w: seq<seq<real>>, targets: seq<nat>, hs: nat, dot: (seq<real>, seq<real>) -> Logit)
  {
    ghost predicate Valid() {
      0 < |h| == |targets| && |w| > 0
      && (forall i :: 0 <= i < |h| ==> |h[i]| == hs && targets[i] < |w|)
      && (forall v :: 0 <= v < |w| ==> |w[v]| == hs)
    }

    function Logit(i: nat, v: nat): Logit
      requires i < |h| && v < |w|
    {
      dot(h[i], w[v])
    }

    // Row i's logits over the whole vocabulary: what the code never holds.
    ghost function Row(i: nat): (r: seq<Logit>)
      requires i < |h|
      ensures |r| == |w| && forall v :: 0 <= v < |w| ==> r[v] == Logit(i, v)
    {
      seq(|w|, v requires 0 <= v < |w| => Logit(i, v))
    }

    // The classes the log-sum-exp of row i takes in.
    ghost function Keys(i: nat): (keys: seq<Key>)
      requires i < |h| && i < |targets|
      ensures |keys| == |w|
    {
      Others(Row(i), targets[i])
    }

    // The gradient of one logit.
    ghost function G(exp: real -> real, scale: real, i: nat, v: nat): real
      requires Valid() && i < |h| && v < |w|
    {
      Scaled(Grad(exp, Row(i), targets[i], v), scale)
    }

    // dh[i, k] over the first n vocabulary rows; dW[v, k] over the first n supervised rows.
    ghost function Dh(exp: real -> real, scale: real, i: nat, k: nat, n: nat): real
      requires Valid() && i < |h| && k < hs && n <= |w|
    {
      if n == 0 then 0.0 else Dh(exp, scale, i, k, n - 1) + G(exp, scale, i, n - 1) * w[n - 1][k]
    }

    ghost function Dw(exp: real -> real, scale: real, v: nat, k: nat, n: nat): real
      requires Valid() && v < |w| && k < hs && n <= |h|
    {
      if n == 0 then 0.0 else Dw(exp, scale, v, k, n - 1) + G(exp, scale, n - 1, v) * h[n - 1][k]
    }
  }

  // ---------- one chunk of logits ----------

  // Columns [0, width) of row i hold the logits of vocabulary rows v0, ..., v0 + width - 1.
  ghost predicate ChunkIs(logits: array2<Logit>, ce: Ce, v0: nat, width: nat)
    reads logits
    requires v0 + width <= |ce.w|
  {
    |ce.h| <= logits.Length0 && width <= logits.Length1
    && forall i, c :: 0 <= i < |ce.h| && 0 <= c < width ==> logits[i, c] == ce.Logit(i, v0 + c)
  }

  // operands.nt: the logits of one chunk.
  method Nt(ce: Ce, v0: nat, width: nat, logits: array2<Logit>)
    requires ce.Valid() && v0 + width <= |ce.w| && |ce.h| <= logits.Length0 && width <= logits.Length1
    modifies logits
    ensures ChunkIs(logits, ce, v0, width)
  {
    forall i, c | 0 <= i < |ce.h| && 0 <= c < width {
      logits[i, c] := ce.Logit(i, v0 + c);
    }
  }

  // ---------- the first walk ----------

  // Row i after the first n vocabulary rows.
  ghost predicate RowWalked(exp: real -> real, ce: Ce, i: nat, n: nat, floor: real, m: real, s: real, tlogit: Logit)
    requires ce.Valid() && i < |ce.h| && n <= |ce.w|
  {
    var keys := ce.Keys(i);
    s == Mass(exp, keys, m, n) && RunningMax(keys, floor, m, n) && (ce.targets[i] < n ==> tlogit == ce.Logit(i, ce.targets[i]))
  }

  // mx is floor raised by the live scores of keys lo, ..., hi - 1.
  ghost predicate SpanMax(keys: seq<Key>, floor: real, mx: real, lo: nat, hi: nat)
    requires lo <= hi <= |keys|
  {
    mx >= floor
    && (forall t :: lo <= t < hi && keys[t].live ==> keys[t].score <= mx)
    && (mx == floor || exists t :: lo <= t < hi && keys[t].live && keys[t].score == mx)
  }

  // What the log-sum-exp of row i takes in of the chunk.
  ghost function ChunkKeys(ce: Ce, i: nat, v0: nat, width: nat): (keys: seq<Key>)
    requires ce.Valid() && i < |ce.h| && v0 + width <= |ce.w|
    ensures |keys| == width
    ensures forall c :: 0 <= c < width ==> keys[c] == ce.Keys(i)[v0 + c] == KeyOf(ce.Logit(i, v0 + c), v0 + c == ce.targets[i])
  {
    ce.Keys(i)[v0..v0 + width]
  }

  // One lane's maximum over its columns; `floor` is the finite identity, and -inf never exceeds it.
  method LaneMaximum(ce: Ce, i: nat, v0: nat, width: nat, logits: array2<Logit>, floor: real, tptg: nat, lid: nat) returns (mx: real)
    requires ce.Valid() && i < |ce.h| && v0 + width <= |ce.w| && ChunkIs(logits, ce, v0, width) && lid < tptg
    ensures L.LaneMax(ChunkKeys(ce, i, v0, width), floor, mx, tptg, lid, width)
  {
    ghost var keys := ChunkKeys(ce, i, v0, width);
    mx := floor;
    var c := lid;
    L.Strides(lid, tptg, lid);
    L.NoneYet(keys, floor, tptg, lid, Min(lid, width));
    while c < width
      invariant L.Mine(c, tptg, lid) && L.LaneMax(keys, floor, mx, tptg, lid, Min(c, width))
      decreases width - c
    {
      L.NextStride(keys, floor, mx, tptg, lid, c, Min(c + tptg, width));
      L.Strides(c, tptg, lid);
      if v0 + c != ce.targets[i] && logits[i, c].Fin? {
        mx := Max(mx, logits[i, c].v);
      }
      c := c + tptg;
    }
  }

  // The chunk's maximum: every lane's, then reduce_row_max.
  method ChunkMax(ce: Ce, i: nat, v0: nat, width: nat, logits: array2<Logit>, floor: real, tptg: nat) returns (mx: real)
    requires ce.Valid() && i < |ce.h| && v0 + width <= |ce.w| && ChunkIs(logits, ce, v0, width) && L.FullRow(tptg)
    ensures SpanMax(ce.Keys(i), floor, mx, v0, v0 + width)
  {
    ghost var keys := ChunkKeys(ce, i, v0, width);
    var mxs: seq<real> := [];
    while |mxs| < tptg
      invariant |mxs| <= tptg && forall l: nat :: l < |mxs| ==> L.LaneMax(keys, floor, mxs[l], tptg, l, width)
    {
      var x := LaneMaximum(ce, i, v0, width, logits, floor, tptg, |mxs|);
      mxs := mxs + [x];
    }
    L.LaneMaxesFold(keys, floor, mxs);
    mx := L.Reduced(L.R.Max, mxs);
    ChunkSpan(ce, i, v0, width, floor, mx);
  }

  lemma {:induction false} ChunkSpan(ce: Ce, i: nat, v0: nat, width: nat, floor: real, mx: real)
    requires ce.Valid() && i < |ce.h| && v0 + width <= |ce.w|
    requires var keys := ChunkKeys(ce, i, v0, width);
             mx >= floor && (forall c :: 0 <= c < |keys| && keys[c].live ==> keys[c].score <= mx)
             && (mx == floor || exists c :: 0 <= c < |keys| && keys[c].live && keys[c].score == mx)
    ensures SpanMax(ce.Keys(i), floor, mx, v0, v0 + width)
  {
    var all, keys := ce.Keys(i), ChunkKeys(ce, i, v0, width);
    forall t | v0 <= t < v0 + width && all[t].live ensures all[t].score <= mx {
      assert keys[t - v0] == all[v0 + (t - v0)];
    }
    if mx != floor {
      var c :| 0 <= c < |keys| && keys[c].live && keys[c].score == mx;
      assert all[v0 + c] == keys[c];
    }
  }

  lemma {:induction false} MaxOfBoth(keys: seq<Key>, floor: real, m: real, mx: real, lo: nat, hi: nat)
    requires lo <= hi <= |keys| && SpanMax(keys, floor, mx, lo, hi)
    requires lo == 0 || RunningMax(keys, floor, m, lo)
    ensures RunningMax(keys, floor, if lo == 0 then mx else Max(m, mx), hi)
  {
  }

  // The weights of the chunk's columns against m.
  ghost function Terms(exp: real -> real, ce: Ce, i: nat, v0: nat, width: nat, m: real): (ts: seq<real>)
    requires ce.Valid() && i < |ce.h| && v0 + width <= |ce.w|
    ensures |ts| == width && forall c :: 0 <= c < width ==> ts[c] == Weight(exp, ChunkKeys(ce, i, v0, width)[c], m)
  {
    seq(width, c requires 0 <= c < width => Weight(exp, ChunkKeys(ce, i, v0, width)[c], m))
  }

  lemma {:induction false} TermsAreMass(exp: real -> real, ce: Ce, i: nat, v0: nat, width: nat, m: real, n: nat)
    requires ce.Valid() && i < |ce.h| && v0 + width <= |ce.w| && n <= width
    ensures L.SumTo(Terms(exp, ce, i, v0, width, m), n) == Mass(exp, ce.Keys(i), m, v0 + n) - Mass(exp, ce.Keys(i), m, v0)
  {
    if n > 0 {
      TermsAreMass(exp, ce, i, v0, width, m, n - 1);
      assert ChunkKeys(ce, i, v0, width)[n - 1] == ce.Keys(i)[v0 + (n - 1)];
    }
  }

  // One lane's sum of exp(logit - m), the target and -inf logits skipped.
  method LaneTotal(exp: real -> real, ce: Ce, i: nat, v0: nat, width: nat, logits: array2<Logit>, m: real, tptg: nat, lid: nat)
    returns (acc: real)
    requires ce.Valid() && i < |ce.h| && v0 + width <= |ce.w| && ChunkIs(logits, ce, v0, width) && lid < tptg
    ensures acc == L.LaneSum(Terms(exp, ce, i, v0, width, m), tptg, lid, width)
  {
    ghost var ts := Terms(exp, ce, i, v0, width, m);
    acc := 0.0;
    var c := lid;
    L.Strides(lid, tptg, lid);
    L.NotYet(ts, tptg, lid, Min(lid, width));
    while c < width
      invariant L.Mine(c, tptg, lid) && acc == L.LaneSum(ts, tptg, lid, Min(c, width))
      decreases width - c
    {
      L.OneStride(ts, tptg, lid, c, Min(c + tptg, width));
      L.Strides(c, tptg, lid);
      assert ChunkKeys(ce, i, v0, width)[c] == KeyOf(ce.Logit(i, v0 + c), v0 + c == ce.targets[i]);
      if v0 + c != ce.targets[i] && logits[i, c].Fin? {
        acc := acc + exp(logits[i, c].v - m);
      }
      c := c + tptg;
    }
  }

  // The chunk's sum: every lane's, then reduce_row_add.
  method ChunkSum(exp: real -> real, ce: Ce, i: nat, v0: nat, width: nat, logits: array2<Logit>, m: real, tptg: nat)
    returns (acc: real)
    requires ce.Valid() && i < |ce.h| && v0 + width <= |ce.w| && ChunkIs(logits, ce, v0, width) && L.FullRow(tptg)
    ensures var keys := ce.Keys(i);
            acc == Mass(exp, keys, m, v0 + width) - Mass(exp, keys, m, v0)
  {
    ghost var ts := Terms(exp, ce, i, v0, width, m);
    var sums: seq<real> := [];
    while |sums| < tptg
      invariant |sums| <= tptg && forall l: nat :: l < |sums| ==> sums[l] == L.LaneSum(ts, tptg, l, width)
    {
      var x := LaneTotal(exp, ce, i, v0, width, logits, m, tptg, |sums|);
      sums := sums + [x];
    }
    assert sums == L.LaneSums(ts, tptg, width);
    L.LaneSumsFold(ts, tptg, width);
    TermsAreMass(exp, ce, i, v0, width, m, width);
    acc := L.Reduced(L.R.Add, sums);
  }

  // ce_lse_update, one row.
  method LseUpdate(exp: real -> real, ce: Ce, i: nat, v0: nat, width: nat, logits: array2<Logit>, floor: real,
                   mOld: real, sOld: real, tOld: Logit, tptg: nat) returns (m: real, s: real, tlogit: Logit)
    requires IsExp(exp) && ce.Valid() && i < |ce.h| && v0 + width <= |ce.w| && ChunkIs(logits, ce, v0, width) && L.FullRow(tptg)
    requires v0 > 0 ==> RowWalked(exp, ce, i, v0, floor, mOld, sOld, tOld)
    ensures RowWalked(exp, ce, i, v0 + width, floor, m, s, tlogit)
  {
    var t := ce.targets[i];
    var mx := ChunkMax(ce, i, v0, width, logits, floor, tptg);
    var mPrev := if v0 == 0 then mx else mOld;
    m := Max(mPrev, mx);
    MaxOfBoth(ce.Keys(i), floor, mOld, mx, v0, v0 + width);
    var acc := ChunkSum(exp, ce, i, v0, width, logits, m, tptg);
    var sPrev := if v0 == 0 then 0.0 else sOld;
    var carried := if sPrev == 0.0 then 0.0 else sPrev * exp(mPrev - m);
    Carried(exp, ce.Keys(i), v0, mPrev, m, sPrev, carried);
    s := carried + acc;
    tlogit := if v0 <= t && t - v0 < width then logits[i, t - v0] else tOld;
  }

  lemma {:induction false} Carried(exp: real -> real, keys: seq<Key>, n: nat, m: real, m': real, s: real, carried: real)
    requires IsExp(exp) && n <= |keys| && s == Mass(exp, keys, m, n)
    requires carried == if s == 0.0 then 0.0 else s * exp(m - m')
    ensures carried == Mass(exp, keys, m', n)
  {
    var zeros := seq(|keys|, _ => 0.0);
    MassSign(exp, keys, m, n);
    RescaleOrZero(exp, keys, zeros, m, m', n, if s > 0.0 then exp(m - m') else 0.0);
  }

  // Every row after the first n vocabulary rows.
  ghost predicate AllWalked(exp: real -> real, ce: Ce, n: nat, floor: real, m: array<real>, s: array<real>, tlogit: array<Logit>)
    reads m, s, tlogit
    requires ce.Valid() && n <= |ce.w|
  {
    |ce.h| <= m.Length && |ce.h| <= s.Length && |ce.h| <= tlogit.Length
    && (n > 0 ==> forall i :: 0 <= i < |ce.h| ==> RowWalked(exp, ce, i, n, floor, m[i], s[i], tlogit[i]))
  }

  // One chunk of the first walk.
  method FirstChunk(exp: real -> real, ce: Ce, v0: nat, width: nat, floor: real, logits: array2<Logit>, m: array<real>,
                    s: array<real>, tlogit: array<Logit>, maxThreads: nat)
    requires IsExp(exp) && ce.Valid() && v0 + width <= |ce.w| && width > 0
    requires |ce.h| <= logits.Length0 && width <= logits.Length1 && m != s && AllWalked(exp, ce, v0, floor, m, s, tlogit)
    modifies logits, m, s, tlogit
    ensures AllWalked(exp, ce, v0 + width, floor, m, s, tlogit)
  {
    Nt(ce, v0, width, logits);
    var tptg := L.RowLanes(maxThreads, width);
    for i := 0 to |ce.h|
      invariant ChunkIs(logits, ce, v0, width)
      invariant forall r :: 0 <= r < i ==> RowWalked(exp, ce, r, v0 + width, floor, m[r], s[r], tlogit[r])
      invariant v0 > 0 ==> forall r :: i <= r < |ce.h| ==> RowWalked(exp, ce, r, v0, floor, m[r], s[r], tlogit[r])
    {
      var mNew, sNew, tNew := LseUpdate(exp, ce, i, v0, width, logits, floor, m[i], s[i], tlogit[i], tptg);
      m[i], s[i], tlogit[i] := mNew, sNew, tNew;
    }
  }

  method FirstWalk(exp: real -> real, ce: Ce, chunk: nat, floor: real, logits: array2<Logit>, m: array<real>, s: array<real>,
                   tlogit: array<Logit>, maxThreads: nat)
    requires IsExp(exp) && ce.Valid() && chunk > 0 && |ce.h| <= logits.Length0 && chunk <= logits.Length1 && m != s
    requires |ce.h| <= m.Length && |ce.h| <= s.Length && |ce.h| <= tlogit.Length
    modifies logits, m, s, tlogit
    ensures AllWalked(exp, ce, |ce.w|, floor, m, s, tlogit)
  {
    var v0 := 0;
    while v0 < |ce.w|
      invariant 0 <= v0 <= |ce.w| && AllWalked(exp, ce, v0, floor, m, s, tlogit)
    {
      var width := Min(chunk, |ce.w| - v0);
      FirstChunk(exp, ce, v0, width, floor, logits, m, s, tlogit, maxThreads);
      v0 := v0 + width;
    }
  }

  // ---------- the second walk ----------

  // Columns [0, width) of row i now hold the gradients of those logits.
  ghost predicate GradsAre(logits: array2<Logit>, exp: real -> real, scale: real, ce: Ce, v0: nat, width: nat)
    reads logits
    requires ce.Valid() && v0 + width <= |ce.w|
  {
    |ce.h| <= logits.Length0 && width <= logits.Length1
    && forall i, c :: 0 <= i < |ce.h| && 0 <= c < width ==> logits[i, c] == Fin(ce.G(exp, scale, i, v0 + c))
  }

  // Rows before i, and of row i the columns before j, are gradients; the rest are still logits.
  ghost predicate GradsUpTo(logits: array2<Logit>, exp: real -> real, scale: real, ce: Ce, v0: nat, width: nat, i: nat, j: nat)
    reads logits
    requires ce.Valid() && v0 + width <= |ce.w|
  {
    |ce.h| <= logits.Length0 && width <= logits.Length1
    && forall r, c :: 0 <= r < |ce.h| && 0 <= c < width ==>
         logits[r, c] == if r < i || (r == i && c < j) then Fin(ce.G(exp, scale, r, v0 + c)) else ce.Logit(r, v0 + c)
  }

  // ce_softmax_grad, one row: the chunk's logits become their gradients, in place.
  method GradRow(exp: real -> real, ln: real -> real, ce: Ce, v0: nat, width: nat, scale: real, logits: array2<Logit>,
                 i: nat, m: real, s: real, tlogit: Logit)
    requires IsExp(exp) && IsLog(exp, ln) && ce.Valid() && v0 + width <= |ce.w| && i < |ce.h|
    requires s == Mass(exp, ce.Keys(i), m, |ce.w|) && tlogit == ce.Logit(i, ce.targets[i])
    requires GradsUpTo(logits, exp, scale, ce, v0, width, i, 0)
    modifies logits
    ensures GradsUpTo(logits, exp, scale, ce, v0, width, i + 1, 0)
  {
    for j := 0 to width
      invariant GradsUpTo(logits, exp, scale, ce, v0, width, i, j)
    {
      assert logits[i, j] == ce.Logit(i, v0 + j);
      var g := GradElement(exp, ln, ce, i, v0 + j, m, s, tlogit, logits[i, j], scale);
      logits[i, j] := g;
    }
  }

  // One element of it: z is the logit of row i and class v.
  method GradElement(exp: real -> real, ln: real -> real, ce: Ce, i: nat, v: nat, m: real, s: real, tlogit: Logit, z: Logit, scale: real)
    returns (g: Logit)
    requires IsExp(exp) && IsLog(exp, ln) && ce.Valid() && i < |ce.h| && v < |ce.w| && z == ce.Logit(i, v)
    requires s == Mass(exp, ce.Keys(i), m, |ce.w|) && tlogit == ce.Logit(i, ce.targets[i])
    ensures g == Fin(ce.G(exp, scale, i, v))
  {
    ElementGrad(exp, ln, ce, i, v, m, s, tlogit, scale);
    g := Fin(Scaled(GradTerm(exp, ln, m, s, tlogit, z, v == ce.targets[i]), scale));
  }

  method SoftmaxGrad(exp: real -> real, ln: real -> real, ce: Ce, v0: nat, width: nat, floor: real, scale: real,
                     logits: array2<Logit>, m: array<real>, s: array<real>, tlogit: array<Logit>)
    requires IsExp(exp) && IsLog(exp, ln) && ce.Valid() && v0 + width <= |ce.w| && ChunkIs(logits, ce, v0, width)
    requires AllWalked(exp, ce, |ce.w|, floor, m, s, tlogit)
    modifies logits
    ensures GradsAre(logits, exp, scale, ce, v0, width)
  {
    for i := 0 to |ce.h|
      invariant GradsUpTo(logits, exp, scale, ce, v0, width, i, 0) && AllWalked(exp, ce, |ce.w|, floor, m, s, tlogit)
    {
      assert RowWalked(exp, ce, i, |ce.w|, floor, m[i], s[i], tlogit[i]);
      GradRow(exp, ln, ce, v0, width, scale, logits, i, m[i], s[i], tlogit[i]);
    }
  }

  lemma {:induction false} ElementGrad(exp: real -> real, ln: real -> real, ce: Ce, i: nat, v: nat, m: real, s: real, tlogit: Logit, scale: real)
    requires IsExp(exp) && IsLog(exp, ln) && ce.Valid() && i < |ce.h| && v < |ce.w|
    requires s == Mass(exp, ce.Keys(i), m, |ce.w|) && tlogit == ce.Logit(i, ce.targets[i])
    ensures tlogit.Fin? ==> 1.0 + exp(-AbsR(tlogit.v - (m + ln(s)))) != 0.0
    ensures Scaled(GradTerm(exp, ln, m, s, tlogit, ce.Logit(i, v), v == ce.targets[i]), scale) == ce.G(exp, scale, i, v)
  {
    GradAgrees(exp, ln, ce.Row(i), ce.targets[i], m, s, v);
  }

  // One element of dlogits @ W_c, and of the transpose of dlogits times h.
  function RowDot(logits: array2<Logit>, ce: Ce, i: nat, v0: nat, k: nat, n: nat): real
    reads logits
    requires i < logits.Length0 && n <= logits.Length1 && v0 + n <= |ce.w| && k < ce.hs
    requires forall v :: 0 <= v < |ce.w| ==> |ce.w[v]| == ce.hs
  {
    if n == 0 then 0.0
    else RowDot(logits, ce, i, v0, k, n - 1) + (if logits[i, n - 1].Fin? then logits[i, n - 1].v else 0.0) * ce.w[v0 + n - 1][k]
  }

  function ColDot(logits: array2<Logit>, ce: Ce, c: nat, k: nat, n: nat): real
    reads logits
    requires n <= logits.Length0 && c < logits.Length1 && n <= |ce.h| && k < ce.hs
    requires forall i :: 0 <= i < |ce.h| ==> |ce.h[i]| == ce.hs
  {
    if n == 0 then 0.0
    else ColDot(logits, ce, c, k, n - 1) + (if logits[n - 1, c].Fin? then logits[n - 1, c].v else 0.0) * ce.h[n - 1][k]
  }

  lemma {:induction false} DhStep(exp: real -> real, scale: real, ce: Ce, i: nat, k: nat, v: nat, g: real)
    requires ce.Valid() && i < |ce.h| && k < ce.hs && v < |ce.w| && g == ce.G(exp, scale, i, v)
    ensures ce.Dh(exp, scale, i, k, v + 1) == ce.Dh(exp, scale, i, k, v) + g * ce.w[v][k]
  {
  }

  lemma {:induction false} RowDotStep(logits: array2<Logit>, ce: Ce, i: nat, v0: nat, k: nat, c: nat, g: real)
    requires i < logits.Length0 && c < logits.Length1 && v0 + c < |ce.w| && k < ce.hs && logits[i, c] == Fin(g)
    requires forall v :: 0 <= v < |ce.w| ==> |ce.w[v]| == ce.hs
    ensures RowDot(logits, ce, i, v0, k, c + 1) == RowDot(logits, ce, i, v0, k, c) + g * ce.w[v0 + c][k]
  {
  }

  lemma {:induction false} RowDotIs(logits: array2<Logit>, exp: real -> real, scale: real, ce: Ce, i: nat, v0: nat, width: nat, k: nat, n: nat)
    requires ce.Valid() && v0 + width <= |ce.w| && GradsAre(logits, exp, scale, ce, v0, width) && i < |ce.h| && k < ce.hs && n <= width
    ensures RowDot(logits, ce, i, v0, k, n) == ce.Dh(exp, scale, i, k, v0 + n) - ce.Dh(exp, scale, i, k, v0)
  {
    if n > 0 {
      var c: nat := n - 1;
      RowDotIs(logits, exp, scale, ce, i, v0, width, k, c);
      var x := logits[i, c].v;
      DhStep(exp, scale, ce, i, k, v0 + c, x);
      RowDotStep(logits, ce, i, v0, k, c, x);
    }
  }

  lemma {:induction false} ColDotIs(logits: array2<Logit>, exp: real -> real, scale: real, ce: Ce, v0: nat, width: nat, c: nat, k: nat, n: nat)
    requires ce.Valid() && v0 + width <= |ce.w| && GradsAre(logits, exp, scale, ce, v0, width) && c < width && k < ce.hs && n <= |ce.h|
    ensures ColDot(logits, ce, c, k, n) == ce.Dw(exp, scale, v0 + c, k, n)
  {
    if n > 0 {
      ColDotIs(logits, exp, scale, ce, v0, width, c, k, n - 1);
      assert logits[n - 1, c] == Fin(ce.G(exp, scale, n - 1, v0 + c));
    }
  }

  // dh over the first n vocabulary rows; before the first chunk it holds anything.
  ghost predicate DhIs(dh: array2<real>, exp: real -> real, scale: real, ce: Ce, n: nat)
    reads dh
    requires ce.Valid() && n <= |ce.w|
  {
    dh.Length0 == |ce.h| && dh.Length1 == ce.hs
    && (n > 0 ==> forall i, k :: 0 <= i < |ce.h| && 0 <= k < ce.hs ==> dh[i, k] == ce.Dh(exp, scale, i, k, n))
  }

  // operands.nn for the first chunk, nn_acc for the rest: dh (+)= dlogits @ W_c.
  method AddDh(exp: real -> real, scale: real, ce: Ce, v0: nat, width: nat, logits: array2<Logit>, dh: array2<real>)
    requires ce.Valid() && v0 + width <= |ce.w| && GradsAre(logits, exp, scale, ce, v0, width) && DhIs(dh, exp, scale, ce, v0)
    modifies dh
    ensures DhIs(dh, exp, scale, ce, v0 + width)
  {
    forall i, k | 0 <= i < |ce.h| && 0 <= k < ce.hs
      ensures RowDot(logits, ce, i, v0, k, width) == ce.Dh(exp, scale, i, k, v0 + width) - ce.Dh(exp, scale, i, k, v0)
    {
      RowDotIs(logits, exp, scale, ce, i, v0, width, k, width);
    }
    forall i, k | 0 <= i < |ce.h| && 0 <= k < ce.hs {
      dh[i, k] := (if v0 == 0 then 0.0 else dh[i, k]) + RowDot(logits, ce, i, v0, k, width);
    }
  }

  // Where dW goes: over a tensor, added into one, or a chunk at a time through a scratch to a sink.
  datatype DwMode = Overwrite | Add | Chunks

  // One call of the sink: the chunk's first vocabulary row, and its rows.
  datatype SinkCall = SinkCall(v0: nat, rows: seq<seq<real>>)

  // What the whole of dW is for these modes: the gradient, on top of what was there when adding.
  ghost predicate DwIs(dw: array2<real>, was: (nat, nat) -> real, mode: DwMode, exp: real -> real, scale: real, ce: Ce, n: nat)
    reads dw
    requires ce.Valid() && n <= |ce.w|
  {
    dw.Length0 == |ce.w| && dw.Length1 == ce.hs
    && forall v, k :: 0 <= v < |ce.w| && 0 <= k < ce.hs ==>
         dw[v, k] == if v < n then (if mode == Add then was(v, k) else 0.0) + ce.Dw(exp, scale, v, k, |ce.h|) else was(v, k)
  }

  // The sink has been given vocabulary rows 0, ..., n - 1, in order, each with its gradient.
  ghost predicate SinkHas(log: seq<SinkCall>, exp: real -> real, scale: real, ce: Ce, n: nat)
    requires ce.Valid() && n <= |ce.w|
  {
    if log == [] then n == 0
    else
      var last := log[|log| - 1];
      last.v0 + |last.rows| == n && last.rows != [] && SinkHas(log[..|log| - 1], exp, scale, ce, last.v0)
      && RowsAre(last.rows, exp, scale, ce, last.v0)
  }

  ghost predicate RowsAre(rows: seq<seq<real>>, exp: real -> real, scale: real, ce: Ce, v0: nat)
    requires ce.Valid() && v0 + |rows| <= |ce.w|
  {
    forall c :: 0 <= c < |rows| ==>
      |rows[c]| == ce.hs && forall k :: 0 <= k < ce.hs ==> rows[c][k] == ce.Dw(exp, scale, v0 + c, k, |ce.h|)
  }

  // operands.tn over, or tn_acc into, rows [v0, v0 + width) of dW.
  method PutDw(exp: real -> real, scale: real, ce: Ce, v0: nat, width: nat, logits: array2<Logit>, dw: array2<real>, mode: DwMode,
               ghost was: (nat, nat) -> real)
    requires ce.Valid() && v0 + width <= |ce.w| && GradsAre(logits, exp, scale, ce, v0, width) && mode != Chunks
    requires DwIs(dw, was, mode, exp, scale, ce, v0)
    modifies dw
    ensures DwIs(dw, was, mode, exp, scale, ce, v0 + width)
  {
    forall c, k | 0 <= c < width && 0 <= k < ce.hs
      ensures ColDot(logits, ce, c, k, |ce.h|) == ce.Dw(exp, scale, v0 + c, k, |ce.h|)
    {
      ColDotIs(logits, exp, scale, ce, v0, width, c, k, |ce.h|);
    }
    forall v, k | v0 <= v < v0 + width && 0 <= k < ce.hs {
      dw[v, k] := (if mode == Add then dw[v, k] else 0.0) + ColDot(logits, ce, v - v0, k, |ce.h|);
    }
    forall v, k | v0 <= v < v0 + width && 0 <= k < ce.hs
      ensures ColDot(logits, ce, v - v0, k, |ce.h|) == ce.Dw(exp, scale, v, k, |ce.h|)
    {
      ColDotIs(logits, exp, scale, ce, v0, width, v - v0, k, |ce.h|);
    }
  }

  // The same rows, as the sink is handed them.
  method SinkDw(exp: real -> real, scale: real, ce: Ce, v0: nat, width: nat, logits: array2<Logit>, log: seq<SinkCall>)
    returns (log': seq<SinkCall>)
    requires ce.Valid() && v0 + width <= |ce.w| && width > 0 && GradsAre(logits, exp, scale, ce, v0, width)
    requires SinkHas(log, exp, scale, ce, v0)
    ensures SinkHas(log', exp, scale, ce, v0 + width)
  {
    var rows := [];
    for c := 0 to width
      invariant |rows| == c && RowsAre(rows, exp, scale, ce, v0)
    {
      var row := [];
      for k := 0 to ce.hs
        invariant |row| == k && forall i :: 0 <= i < k ==> row[i] == ce.Dw(exp, scale, v0 + c, i, |ce.h|)
      {
        ColDotIs(logits, exp, scale, ce, v0, width, c, k, |ce.h|);
        row := row + [ColDot(logits, ce, c, k, |ce.h|)];
      }
      rows := rows + [row];
    }
    log' := log + [SinkCall(v0, rows)];
    assert log'[..|log|] == log;
  }

  // What the second walk has produced after the first n vocabulary rows.
  ghost predicate GradsOut(dh: array2<real>, dw: array2<real>, log: seq<SinkCall>, mode: DwMode, was: (nat, nat) -> real,
                           exp: real -> real, scale: real, ce: Ce, n: nat)
    reads dh, dw
    requires ce.Valid() && n <= |ce.w|
  {
    DhIs(dh, exp, scale, ce, n)
    && if mode == Chunks then SinkHas(log, exp, scale, ce, n) else DwIs(dw, was, mode, exp, scale, ce, n)
  }

  // Where the second walk stands: the first walk's state, and what it has produced.
  ghost predicate Second(dh: array2<real>, dw: array2<real>, log: seq<SinkCall>, mode: DwMode, was: (nat, nat) -> real,
                         exp: real -> real, scale: real, ce: Ce, n: nat, floor: real, m: array<real>, s: array<real>, tlogit: array<Logit>)
    reads dh, dw, m, s, tlogit
    requires ce.Valid() && n <= |ce.w|
  {
    AllWalked(exp, ce, |ce.w|, floor, m, s, tlogit) && GradsOut(dh, dw, log, mode, was, exp, scale, ce, n)
  }

  // One chunk of it: the logits recomputed, turned into gradients, and spent in two GEMMs.
  method SecondChunk(exp: real -> real, ln: real -> real, ce: Ce, v0: nat, width: nat, floor: real, scale: real,
                     logits: array2<Logit>, m: array<real>, s: array<real>, tlogit: array<Logit>, dh: array2<real>,
                     dw: array2<real>, mode: DwMode, ghost was: (nat, nat) -> real, log: seq<SinkCall>)
    returns (log': seq<SinkCall>)
    requires IsExp(exp) && IsLog(exp, ln) && ce.Valid() && width > 0 && v0 + width <= |ce.w|
    requires |ce.h| <= logits.Length0 && width <= logits.Length1 && dh != dw
    requires Second(dh, dw, log, mode, was, exp, scale, ce, v0, floor, m, s, tlogit)
    modifies logits, dh, dw
    ensures Second(dh, dw, log', mode, was, exp, scale, ce, v0 + width, floor, m, s, tlogit)
  {
    Nt(ce, v0, width, logits);
    SoftmaxGrad(exp, ln, ce, v0, width, floor, scale, logits, m, s, tlogit);
    AddDh(exp, scale, ce, v0, width, logits, dh);
    log' := log;
    if mode == Chunks {
      log' := SinkDw(exp, scale, ce, v0, width, logits, log);
    } else {
      PutDw(exp, scale, ce, v0, width, logits, dw, mode, was);
    }
  }

  // One turn of the second walk's loop.
  method SecondStep(exp: real -> real, ln: real -> real, ce: Ce, chunk: nat, v0: nat, floor: real, scale: real,
                    logits: array2<Logit>, m: array<real>, s: array<real>, tlogit: array<Logit>, dh: array2<real>,
                    dw: array2<real>, mode: DwMode, ghost was: (nat, nat) -> real, log: seq<SinkCall>)
    returns (next: nat, log': seq<SinkCall>)
    requires IsExp(exp) && IsLog(exp, ln) && ce.Valid() && chunk > 0 && v0 < |ce.w|
    requires |ce.h| <= logits.Length0 && chunk <= logits.Length1 && dh != dw
    requires Second(dh, dw, log, mode, was, exp, scale, ce, v0, floor, m, s, tlogit)
    modifies logits, dh, dw
    ensures v0 < next <= |ce.w| && Second(dh, dw, log', mode, was, exp, scale, ce, next, floor, m, s, tlogit)
  {
    var width := Min(chunk, |ce.w| - v0);
    log' := SecondChunk(exp, ln, ce, v0, width, floor, scale, logits, m, s, tlogit, dh, dw, mode, was, log);
    next := v0 + width;
  }

  method SecondWalk(exp: real -> real, ln: real -> real, ce: Ce, chunk: nat, floor: real, scale: real, logits: array2<Logit>,
                    m: array<real>, s: array<real>, tlogit: array<Logit>, dh: array2<real>, dw: array2<real>, mode: DwMode,
                    ghost was: (nat, nat) -> real)
    returns (log: seq<SinkCall>)
    requires IsExp(exp) && IsLog(exp, ln) && ce.Valid() && chunk > 0 && |ce.h| <= logits.Length0 && chunk <= logits.Length1
    requires AllWalked(exp, ce, |ce.w|, floor, m, s, tlogit) && dh != dw
    requires GradsOut(dh, dw, [], mode, was, exp, scale, ce, 0)
    modifies logits, dh, dw
    ensures GradsOut(dh, dw, log, mode, was, exp, scale, ce, |ce.w|)
  {
    log := [];
    var v0 := 0;
    while v0 < |ce.w|
      invariant 0 <= v0 <= |ce.w| && Second(dh, dw, log, mode, was, exp, scale, ce, v0, floor, m, s, tlogit)
    {
      v0, log := SecondStep(exp, ln, ce, chunk, v0, floor, scale, logits, m, s, tlogit, dh, dw, mode, was, log);
    }
    assert v0 == |ce.w|;
  }

  // The three modes agree: what a sink is handed, row by row, is what overwriting writes, and what adding adds.
  lemma {:induction false} ModesAgree(exp: real -> real, scale: real, ce: Ce, log: seq<SinkCall>, n: nat, v: nat)
    returns (call: nat)
    requires ce.Valid() && n <= |ce.w| && SinkHas(log, exp, scale, ce, n) && v < n
    ensures call < |log| && log[call].v0 <= v < log[call].v0 + |log[call].rows|
    ensures |log[call].rows[v - log[call].v0]| == ce.hs
    ensures forall k :: 0 <= k < ce.hs ==> log[call].rows[v - log[call].v0][k] == ce.Dw(exp, scale, v, k, |ce.h|)
  {
    var last := log[|log| - 1];
    if v < last.v0 {
      call := ModesAgree(exp, scale, ce, log[..|log| - 1], last.v0, v);
    } else {
      call := |log| - 1;
    }
  }

  // ---------- the call ----------

  datatype CeError = TooManyRows | NoRows | TargetCount | EmptyVocabulary | HiddenWindow | RowPastEnd(i: nat)
                   | TargetPastEnd(i: nat) | NotFinite(i: nat)

  datatype CeResult = Done(loss: real, perRow: seq<real>) | Failed(error: CeError)

  ghost function LossOf(exp: real -> real, ln: real -> real, ce: Ce, i: nat): LossValue
    requires ce.Valid() && i < |ce.h|
  {
    Loss(exp, ln, ce.Row(i), ce.targets[i])
  }

  function Total(xs: seq<real>): real { if xs == [] then 0.0 else Total(xs[..|xs| - 1]) + xs[|xs| - 1] }

  // The losses, from the first walk's state; the first infinite one fails the call.
  method Losses(exp: real -> real, ln: real -> real, ce: Ce, floor: real, m: array<real>, s: array<real>, tlogit: array<Logit>, mean: bool)
    returns (r: CeResult)
    requires IsExp(exp) && IsLog(exp, ln) && ce.Valid() && AllWalked(exp, ce, |ce.w|, floor, m, s, tlogit)
    ensures r.Done? ==> |r.perRow| == |ce.h| && r.loss == Total(r.perRow) / if mean then |ce.h| as real else 1.0
    ensures r.Done? ==> forall i :: 0 <= i < |ce.h| ==> LossOf(exp, ln, ce, i) == Finite(r.perRow[i])
    ensures r.Failed? ==> r.error.NotFinite? && r.error.i < |ce.h| && LossOf(exp, ln, ce, r.error.i).Infinite?
    ensures r.Failed? ==> forall i :: 0 <= i < r.error.i ==> LossOf(exp, ln, ce, i).Finite?
  {
    var perRow: seq<real> := [];
    for i := 0 to |ce.h|
      invariant |perRow| == i && forall j :: 0 <= j < i ==> LossOf(exp, ln, ce, j) == Finite(perRow[j])
    {
      assert RowWalked(exp, ce, i, |ce.w|, floor, m[i], s[i], tlogit[i]);
      LossAgrees(exp, ln, ce.Row(i), ce.targets[i], m[i], s[i]);
      var l := RowLoss(exp, ln, m[i], s[i], tlogit[i]);
      if l.Infinite? {
        return Failed(NotFinite(i));
      }
      perRow := perRow + [l.value];
    }
    var total := 0.0;
    for i := 0 to |perRow|
      invariant total == Total(perRow[..i])
    {
      assert perRow[..i + 1][..i] == perRow[..i];
      total := total + perRow[i];
    }
    assert perRow[..|perRow|] == perRow;
    r := Done(total / if mean then |ce.h| as real else 1.0, perRow);
  }

  // ce_rows on inputs the checks accept: both walks, then the losses. `scale` reaches every gradient, divided by the
  // row count under a mean.
  method CeRows(exp: real -> real, ln: real -> real, ce: Ce, chunk: nat, floor: real, mean: bool, scale: real,
                logits: array2<Logit>, m: array<real>, s: array<real>, tlogit: array<Logit>, dh: array2<real>, dw: array2<real>,
                mode: DwMode, maxThreads: nat, ghost was: (nat, nat) -> real)
    returns (r: CeResult, log: seq<SinkCall>)
    requires IsExp(exp) && IsLog(exp, ln) && ce.Valid() && chunk > 0 && |ce.h| <= logits.Length0 && chunk <= logits.Length1
    requires m != s && dh != dw && |ce.h| <= m.Length && |ce.h| <= s.Length && |ce.h| <= tlogit.Length
    requires dh.Length0 == |ce.h| && dh.Length1 == ce.hs
    requires mode != Chunks ==> dw.Length0 == |ce.w| && dw.Length1 == ce.hs
    requires mode != Chunks ==> forall v, k :: 0 <= v < |ce.w| && 0 <= k < ce.hs ==> dw[v, k] == was(v, k)
    modifies logits, m, s, tlogit, dh, dw
    ensures GradsOut(dh, dw, log, mode, was, exp, scale / (if mean then |ce.h| as real else 1.0), ce, |ce.w|)
    ensures r.Done? ==> |r.perRow| == |ce.h| && r.loss == Total(r.perRow) / if mean then |ce.h| as real else 1.0
    ensures r.Done? ==> forall i :: 0 <= i < |ce.h| ==> LossOf(exp, ln, ce, i) == Finite(r.perRow[i])
    ensures r.Failed? ==> r.error.NotFinite? && r.error.i < |ce.h| && LossOf(exp, ln, ce, r.error.i).Infinite?
    ensures r.Failed? ==> forall i :: 0 <= i < r.error.i ==> LossOf(exp, ln, ce, i).Finite?
  {
    FirstWalk(exp, ce, chunk, floor, logits, m, s, tlogit, maxThreads);
    var perRowScale := scale / if mean then |ce.h| as real else 1.0;
    log := SecondWalk(exp, ln, ce, chunk, floor, perRowScale, logits, m, s, tlogit, dh, dw, mode, was);
    r := Losses(exp, ln, ce, floor, m, s, tlogit, mean);
  }
}
