// One row of a chunk on the lanes of its threadgroup (kernels/cross_entropy.metal): each lane strides over its own columns,
// and the two-level reduction (kernels/reduce_tree.h) brings the lanes together.
module CeLanes {
  import opened Common
  import opened OnlineSoftmax
  import opened Lanes
  import opened R = ReduceTree
  import opened ReduceTotal

  // ---------- the launch ----------

  // The least power of two that is not below n.
  function NextPow2(n: nat): (p: nat)
    ensures n <= p && p > 0 && (n > 0 ==> p < 2 * n)
  {
    if n <= 1 then 1 else 2 * NextPow2((n + 1) / 2)
  }

  // Launches whose reductions reach every lane's value.
  predicate FullRow(tptg: nat) { 0 < tptg <= 1024 && Covers(tptg) }

  // Lanes per row: what the pipeline allows, for `width` columns.
  function RowLanes(maxThreads: nat, width: nat): (tptg: nat)
    ensures FullRow(tptg)
  {
    HostCovers(maxThreads, NextPow2(width));
    ReductionTptg(maxThreads, NextPow2(width), 1024)
  }

  // What reduce_row_add or reduce_row_max leaves in lane 0.
  function Reduced(k: Kind, w: seq<real>): (x: real)
    requires FullRow(|w|)
    ensures x == Fold(k, w)
  {
    ResultIsTotal(k, w, 0);
    Result(k, w, 0)
  }

  // ---------- sums ----------

  ghost function SumTo(ts: seq<real>, n: nat): real
    requires n <= |ts|
  {
    if n == 0 then 0.0 else SumTo(ts, n - 1) + ts[n - 1]
  }

  // Column c is lane lid's.
  predicate Mine(c: nat, tptg: nat, lid: nat)
    requires tptg > 0
  {
    c % tptg == lid
  }

  lemma {:induction false} Strides(c: nat, tptg: nat, lid: nat)
    requires lid < tptg
    ensures Mine(lid, tptg, lid) && (Mine(c, tptg, lid) ==> Mine(c + tptg, tptg, lid))
  {
    ModUnique(lid, 0, lid, tptg);
    StrideStep(c, tptg);
  }

  // The terms before n of lane lid.
  ghost function LaneSum(ts: seq<real>, tptg: nat, lid: nat, n: nat): real
    requires tptg > 0 && n <= |ts|
  {
    if n == 0 then 0.0 else LaneSum(ts, tptg, lid, n - 1) + if Mine(n - 1, tptg, lid) then ts[n - 1] else 0.0
  }

  // Nothing of the lane's lies before its first column.
  lemma {:induction false} NotYet(ts: seq<real>, tptg: nat, lid: nat, n: nat)
    requires lid < tptg && n <= lid && n <= |ts|
    ensures LaneSum(ts, tptg, lid, n) == 0.0
  {
    if n > 0 {
      NotYet(ts, tptg, lid, n - 1);
      ModUnique(n - 1, 0, n - 1, tptg);
    }
  }

  // Nor between one column and the next.
  lemma {:induction false} OneStride(ts: seq<real>, tptg: nat, lid: nat, c: nat, n: nat)
    requires tptg > 0 && Mine(c, tptg, lid) && c < n <= |ts| && n <= c + tptg
    ensures LaneSum(ts, tptg, lid, n) == LaneSum(ts, tptg, lid, c) + ts[c]
  {
    if n > c + 1 {
      OneStride(ts, tptg, lid, c, n - 1);
      if Mine(n - 1, tptg, lid) {
        StrideGap(c, n - 1, tptg);
      }
    }
  }

  ghost function LaneSums(ts: seq<real>, tptg: nat, n: nat): (sums: seq<real>)
    requires tptg > 0 && n <= |ts|
    ensures |sums| == tptg && forall l: nat :: l < tptg ==> sums[l] == LaneSum(ts, tptg, l, n)
  {
    seq(tptg, l requires 0 <= l < tptg => LaneSum(ts, tptg, l, n))
  }

  // Raising one lane's value by x raises the fold by x.
  lemma {:induction false} FoldRaised(a: seq<real>, b: seq<real>, i: nat, x: real)
    requires |a| == |b| && i < |a| && forall j :: 0 <= j < |a| ==> b[j] == if j == i then a[j] + x else a[j]
    ensures Fold(Add, b) == Fold(Add, a) + x
  {
    var n := |a| - 1;
    if i < n {
      FoldRaised(a[..n], b[..n], i, x);
    } else if n > 0 {
      assert a[..n] == b[..n];
    }
  }

  // The lanes' sums fold to the sum of all the terms.
  lemma {:induction false} LaneSumsFold(ts: seq<real>, tptg: nat, n: nat)
    requires tptg > 0 && n <= |ts|
    ensures Fold(Add, LaneSums(ts, tptg, n)) == SumTo(ts, n)
  {
    if n == 0 {
      FoldZeros(Add, LaneSums(ts, tptg, 0));
    } else {
      LaneSumsFold(ts, tptg, n - 1);
      FoldRaised(LaneSums(ts, tptg, n - 1), LaneSums(ts, tptg, n), (n - 1) % tptg, ts[n - 1]);
    }
  }

  // ---------- maxima ----------

  // mx is `floor` raised by the live scores the lane has met before column n.
  ghost predicate LaneMax(keys: seq<Key>, floor: real, mx: real, tptg: nat, lid: nat, n: nat)
    requires tptg > 0 && n <= |keys|
  {
    mx >= floor
    && (forall c: nat :: c < n && Mine(c, tptg, lid) && keys[c].live ==> keys[c].score <= mx)
    && (mx == floor || exists c: nat :: c < n && Mine(c, tptg, lid) && keys[c].live && keys[c].score == mx)
  }

  lemma {:induction false} NoneYet(keys: seq<Key>, floor: real, tptg: nat, lid: nat, n: nat)
    requires lid < tptg && n <= lid && n <= |keys|
    ensures LaneMax(keys, floor, floor, tptg, lid, n)
  {
    forall c: nat | c < n ensures !Mine(c, tptg, lid) {
      ModUnique(c, 0, c, tptg);
    }
  }

  lemma {:induction false} NextStride(keys: seq<Key>, floor: real, mx: real, tptg: nat, lid: nat, c: nat, n: nat)
    requires tptg > 0 && Mine(c, tptg, lid) && c < n <= |keys| && n <= c + tptg && LaneMax(keys, floor, mx, tptg, lid, c)
    ensures LaneMax(keys, floor, if keys[c].live && keys[c].score > mx then keys[c].score else mx, tptg, lid, n)
  {
    forall c': nat | c < c' < n ensures !Mine(c', tptg, lid) {
      if Mine(c', tptg, lid) {
        StrideGap(c, c', tptg);
      }
    }
  }

  // The fold of maxima is one of them and bounds them all.
  lemma {:induction false} FoldMaxIs(w: seq<real>) returns (i: nat)
    requires w != []
    ensures i < |w| && w[i] == Fold(Max, w) && forall j :: 0 <= j < |w| ==> w[j] <= Fold(Max, w)
  {
    var n := |w| - 1;
    if n == 0 {
      i := 0;
    } else {
      i := FoldMaxIs(w[..n]);
      if w[n] >= w[i] { i := n; }
      forall j | 0 <= j < |w| ensures w[j] <= Fold(Max, w) {
        if j < n { assert w[..n][j] == w[j]; }
      }
    }
  }

  // Every column is some lane's, so the lanes' maxima fold to the maximum of the row.
  lemma {:induction false} LaneMaxesFold(keys: seq<Key>, floor: real, mxs: seq<real>)
    requires mxs != [] && forall l: nat :: l < |mxs| ==> LaneMax(keys, floor, mxs[l], |mxs|, l, |keys|)
    ensures var mx := Fold(Max, mxs);
            mx >= floor && (forall c :: 0 <= c < |keys| && keys[c].live ==> keys[c].score <= mx)
            && (mx == floor || exists c :: 0 <= c < |keys| && keys[c].live && keys[c].score == mx)
  {
    var i := FoldMaxIs(mxs);
    assert LaneMax(keys, floor, mxs[i], |mxs|, i, |keys|);
    forall c: nat | c < |keys| && keys[c].live ensures keys[c].score <= Fold(Max, mxs) {
      var l := c % |mxs|;
      assert LaneMax(keys, floor, mxs[l], |mxs|, l, |keys|);
      assert Mine(c, |mxs|, l);
    }
  }
}
