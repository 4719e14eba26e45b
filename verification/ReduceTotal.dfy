// When the two-level reduction (kernels/reduce_tree.h) gives every lane the fold of the whole row: exactly when the
// last simdgroup has a lane for every partial, which the host's power-of-two launches always do.
module ReduceTotal {
  import opened ReduceTree

  lemma {:induction false} FoldConcat(k: Kind, a: seq<real>, b: seq<real>)
    requires a != [] && b != []
    ensures Fold(k, a + b) == Op(k, Fold(k, a), Fold(k, b))
    decreases |b|
  {
    var ab := a + b;
    if |b| == 1 {
      assert ab[..|ab| - 1] == a;
    } else {
      assert ab[..|ab| - 1] == a + b[..|b| - 1];
      FoldConcat(k, a, b[..|b| - 1]);
    }
  }

  // One past the last lane of simdgroup g.
  function End(tptg: nat, g: nat): (e: nat)
    requires g < Groups(tptg)
    ensures e <= tptg && (g + 1 < Groups(tptg) ==> e == 32 * (g + 1)) && (g + 1 == Groups(tptg) ==> e == tptg)
  {
    32 * g + Active(tptg, g)
  }

  // The partials of simdgroups 0, ..., n - 1 fold to the fold of their lanes.
  lemma {:induction false} PartialsFold(k: Kind, w: seq<real>, n: nat)
    requires 0 < n <= Groups(|w|)
    ensures Fold(k, TakenBy(k, w, n)) == Fold(k, w[..End(|w|, n - 1)])
  {
    var e := End(|w|, n - 1);
    if n == 1 {
      assert w[..e] == Of(w, 0);
    } else {
      PartialsFold(k, w, n - 1);
      assert TakenBy(k, w, n)[..n - 1] == TakenBy(k, w, n - 1);
      FoldConcat(k, w[..32 * (n - 1)], Of(w, n - 1));
      assert w[..e] == w[..32 * (n - 1)] + Of(w, n - 1);
    }
  }

  lemma {:induction false} FirstWithin(w: seq<real>)
    requires w != []
    ensures Op(Max, Fold(Max, w), Partial(Max, w, 0)) == Fold(Max, w)
  {
    var e := End(|w|, 0);
    assert Of(w, 0) == w[..e];
    if e < |w| {
      FoldConcat(Max, w[..e], w[e..]);
      assert w == w[..e] + w[e..];
    } else {
      assert w == w[..e];
    }
  }

  // Lanes past the last simdgroup change nothing: a sum takes 0, a maximum takes the first partial again.
  lemma {:induction false} PaddedFold(k: Kind, w: seq<real>, n: nat)
    requires w != [] && n >= Groups(|w|)
    ensures Fold(k, TakenBy(k, w, n)) == Fold(k, w)
    decreases n
  {
    if n == Groups(|w|) {
      PartialsFold(k, w, n);
      assert w[..End(|w|, n - 1)] == w;
    } else {
      PaddedFold(k, w, n - 1);
      assert TakenBy(k, w, n)[..n - 1] == TakenBy(k, w, n - 1);
      if k == Max { FirstWithin(w); }
    }
  }

  lemma {:induction false} ResultIsTotal(k: Kind, w: seq<real>, g: nat)
    requires g < Groups(|w|) && (Groups(|w|) == 1 || Active(|w|, g) >= Groups(|w|))
    ensures Result(k, w, g) == Fold(k, w)
  {
    if Groups(|w|) == 1 {
      assert Of(w, 0) == w;
    } else {
      PaddedFold(k, w, Active(|w|, g));
    }
  }

  // ---------- the launches that miss some lanes ----------

  function Zeros(n: nat): (z: seq<real>)
    ensures |z| == n && forall i :: 0 <= i < n ==> z[i] == 0.0
  {
    seq(n, i => 0.0)
  }

  lemma {:induction false} FoldZeros(k: Kind, z: seq<real>)
    requires z != [] && forall i :: 0 <= i < |z| ==> z[i] == 0.0
    ensures Fold(k, z) == 0.0
    decreases |z|
  {
    if |z| > 1 { FoldZeros(k, z[..|z| - 1]); }
  }

  // A row that is zero but in its last lane.
  function Spike(tptg: nat): (w: seq<real>)
    requires tptg > 0
    ensures |w| == tptg
  {
    Zeros(tptg - 1) + [1.0]
  }

  // A simdgroup with fewer lanes than there are partials never reads the last partial.
  lemma {:induction false} SpikeMissed(k: Kind, tptg: nat, g: nat)
    requires g < Groups(tptg) && Groups(tptg) > 1 && Active(tptg, g) < Groups(tptg)
    ensures Result(k, Spike(tptg), g) == 0.0 && Fold(k, Spike(tptg)) == 1.0
  {
    var w, n := Spike(tptg), Active(tptg, g);
    forall i | 0 <= i < n ensures TakenBy(k, w, n)[i] == 0.0 {
      FoldZeros(k, Of(w, i));
    }
    FoldZeros(k, TakenBy(k, w, n));
    assert w[..tptg - 1] == Zeros(tptg - 1);
    FoldZeros(k, Zeros(tptg - 1));
  }

  // The launches whose last simdgroup has a lane for every partial.
  predicate Covers(tptg: nat) { tptg <= 32 || (tptg > 0 && (tptg - 1) % 32 + 1 >= Groups(tptg)) }

  ghost predicate EveryLaneTotal(k: Kind, tptg: nat) {
    forall w: seq<real>, g: nat :: |w| == tptg && g < Groups(tptg) ==> Result(k, w, g) == Fold(k, w)
  }

  // Main: the header promises the total in every lane for up to 1024 lanes; that holds exactly when Covers does.
  lemma {:induction false} TotalIffCovers(k: Kind, tptg: nat)
    requires 0 < tptg <= 1024
    ensures EveryLaneTotal(k, tptg) <==> Covers(tptg)
  {
    if Covers(tptg) {
      forall w: seq<real>, g: nat | |w| == tptg && g < Groups(tptg) ensures Result(k, w, g) == Fold(k, w) {
        ResultIsTotal(k, w, g);
      }
    } else {
      SpikeMissed(k, tptg, Groups(tptg) - 1);
    }
  }

  // The smallest launch that misses lanes: 33 lanes leave the second simdgroup one lane for two partials.
  lemma {:induction false} ThirtyThreeMisses(k: Kind)
    ensures !EveryLaneTotal(k, 33)
  {
    TotalIffCovers(k, 33);
  }

  // ---------- the host's launches (src/nn.rs) ----------

  function FloorPow2(n: nat): (p: nat)
    requires n > 0
    ensures p <= n < 2 * p
  {
    if n == 1 then 1 else 2 * FloorPow2(n / 2)
  }

  lemma {:induction false} FloorPow2Covers(n: nat)
    requires n > 0
    ensures var p := FloorPow2(n); p == 1 || p == 2 || p == 4 || p == 8 || p == 16 || p == 32 || p % 32 == 0
    decreases n
  {
    if n > 1 { FloorPow2Covers(n / 2); }
  }

  function ReductionTptg(maxThreads: nat, want: nat, limit: nat): nat {
    var least := if maxThreads < limit then maxThreads else limit;
    var cap := if least < want then least else want;
    FloorPow2(if cap < 1 then 1 else cap)
  }

  lemma {:induction false} CoversPow2(p: nat)
    requires 0 < p <= 1024 && (p <= 32 || p % 32 == 0)
    ensures Covers(p)
  {
    if p > 32 { assert (p - 1) % 32 + 1 == 32; }
  }

  lemma {:induction false} HostCovers(maxThreads: nat, want: nat)
    ensures 0 < ReductionTptg(maxThreads, want, 1024) <= 1024 && Covers(ReductionTptg(maxThreads, want, 1024))
  {
    var least := if maxThreads < 1024 then maxThreads else 1024;
    var cap := if least < want then least else want;
    FloorPow2Covers(if cap < 1 then 1 else cap);
    CoversPow2(ReductionTptg(maxThreads, want, 1024));
  }

  // The host launches as many lanes as it can: a power of two more would pass the pipeline's limit, the width or 1024.
  lemma {:induction false} HostLaunchSize(maxThreads: nat, want: nat)
    requires maxThreads > 0 && want > 0
    ensures var p := ReductionTptg(maxThreads, want, 1024);
            p <= maxThreads && p <= want && p <= 1024 && (2 * p > maxThreads || 2 * p > want || 2 * p > 1024)
  {
  }

  // Main: for every pipeline limit and row width, every run of the host's launch ends with the total in every lane.
  lemma {:induction false} HostLaunchTotal(maxThreads: nat, want: nat, c: Launch, s: State, moves: seq<Move>, t: State, l: nat)
    requires |c.v| == ReductionTptg(maxThreads, want, 1024)
    requires c.Valid() && Start(c, s) && Run(c, s, moves, t) && l < |c.v|
    ensures t.Fits(|c.v|)
    ensures t.pc[l] == 5 ==> t.v[l] == Fold(c.k0, c.v)
    ensures t.pc[l] == 11 ==> t.v[l] == Fold(c.k1, c.NextIn())
    ensures forall l' :: 0 <= l' < |c.v| ==> c.NextIn()[l'] == c.next(l', Fold(c.k0, c.v))
  {
    HostCovers(maxThreads, want);
    TotalIffCovers(c.k0, |c.v|);
    TotalIffCovers(c.k1, |c.v|);
    assert forall g :: 0 <= g < Groups(|c.v|) ==> Result(c.k0, c.v, g) == Fold(c.k0, c.v);
    assert Result(c.k1, c.NextIn(), l / 32) == Fold(c.k1, c.NextIn());
    EveryRun(c, s, moves, t, l);
  }
}
