// The xor butterfly over the lanes of a simdgroup: log2(R) rounds of simd_shuffle_xor that leave the same
// fold in every lane.
module Butterfly {
  import opened Common
  import opened Lanes

  ghost predicate Comm(op: (real, real) -> real, x: real, y: real) { op(x, y) == op(y, x) }

  ghost predicate Assoc(op: (real, real) -> real, x: real, y: real, z: real) { op(op(x, y), z) == op(x, op(y, z)) }

  ghost predicate AC(op: (real, real) -> real) {
    (forall x, y :: Comm(op, x, y)) && forall x, y, z :: Assoc(op, x, y, z)
  }

  predicate PowerOfTwo(r: nat) {
    r == 1 || (r > 1 && r % 2 == 0 && PowerOfTwo(r / 2))
  }

  // The lane whose index differs from l in the bit worth `off`.
  function Xor(l: nat, off: nat): nat
    requires off > 0
  {
    ModLe(l, 2 * off);
    if l % (2 * off) < off then l + off else l - off
  }

  lemma {:induction false} ModLe(l: nat, w: nat)
    requires w > 0
    ensures l % w <= l
  {
    MulMono(0, l / w, w);
    assert l == (l / w) * w + l % w;
  }

  // Left fold of a nonempty sequence.
  ghost function Fold(op: (real, real) -> real, p: seq<real>): real
    requires p != []
  {
    if |p| == 1 then p[0] else op(Fold(op, p[..|p| - 1]), p[|p| - 1])
  }

  // Lane by lane combination of two sequences.
  ghost function Zip(op: (real, real) -> real, a: seq<real>, b: seq<real>): (c: seq<real>)
    requires |a| == |b|
    ensures |c| == |a| && forall i :: 0 <= i < |c| ==> c[i] == op(a[i], b[i])
  {
    seq(|a|, i requires 0 <= i < |a| => op(a[i], b[i]))
  }

  lemma {:induction false} Regroup(op: (real, real) -> real, a: real, b: real, x: real, y: real)
    requires AC(op)
    ensures op(op(a, b), op(x, y)) == op(op(a, x), op(b, y))
  {
    assert Assoc(op, a, b, op(x, y)) && Assoc(op, b, x, y) && Comm(op, b, x) && Assoc(op, x, b, y);
    assert Assoc(op, a, x, op(b, y));
  }

  lemma {:induction false} FoldZip(op: (real, real) -> real, a: seq<real>, b: seq<real>)
    requires AC(op) && |a| == |b| >= 1
    ensures Fold(op, Zip(op, a, b)) == op(Fold(op, a), Fold(op, b))
  {
    if |a| > 1 {
      var n := |a| - 1;
      FoldZip(op, a[..n], b[..n]);
      assert Zip(op, a, b)[..n] == Zip(op, a[..n], b[..n]);
      Regroup(op, Fold(op, a[..n]), Fold(op, b[..n]), a[n], b[n]);
      assert Zip(op, a, b)[n] == op(a[n], b[n]);
    }
  }

  lemma {:induction false} FoldConcat(op: (real, real) -> real, a: seq<real>, b: seq<real>)
    requires AC(op) && |a| >= 1 && |b| >= 1
    ensures Fold(op, a + b) == op(Fold(op, a), Fold(op, b))
    decreases |b|
  {
    var n := |b| - 1;
    assert (a + b)[..|a| + n] == a + b[..n];
    if n == 0 {
      assert a + b[..0] == a;
    } else {
      FoldConcat(op, a, b[..n]);
      assert Assoc(op, Fold(op, a), Fold(op, b[..n]), b[n]);
    }
  }

  // Where a lane and its partner sit modulo the two strides.
  lemma {:induction false} XorResidues(l: nat, off: nat, n: nat)
    requires off > 0 && l < n * (2 * off)
    ensures Xor(l, off) < n * (2 * off)
    ensures var m := l % (2 * off);
            if m < off then l % off == m && Xor(l, off) % (2 * off) == m + off
            else l % off == m - off && Xor(l, off) % (2 * off) == m - off
  {
    var w := 2 * off;
    var q, m := l / w, l % w;
    assert l == q * w + m;
    if q >= n {
      MulMono(n, q, w);
    }
    MulMono(q + 1, n, w);
    TwiceTimes(q, off);
    if m < off {
      ModUnique(l, 2 * q, m, off);
      ModUnique(l + off, q, m + off, w);
    } else {
      ModUnique(l, 2 * q + 1, m - off, off);
      ModUnique(l - off, q, m - off, w);
    }
  }

  lemma {:induction false} TwiceTimes(q: nat, off: nat)
    ensures q * (2 * off) == (2 * q) * off
    ensures (2 * q + 1) * off == q * (2 * off) + off
    ensures (q + 1) * (2 * off) == q * (2 * off) + 2 * off
  {
  }

  // Lane l holds element l mod |cur| of cur.
  ghost predicate Repeats(out: seq<real>, cur: seq<real>, l: nat) {
    |cur| > 0 && l < |out| && l % |cur| < |cur| && out[l] == cur[l % |cur|]
  }

  // One round, every lane in lockstep.
  function Shuffle(op: (real, real) -> real, out: seq<real>, off: nat): (out': seq<real>)
    requires off > 0 && forall l: nat :: l < |out| ==> Xor(l, off) < |out|
    ensures |out'| == |out|
  {
    seq(|out|, l requires 0 <= l < |out| => op(out[l], out[Xor(l, off)]))
  }

  // It maps a repetition of cur to a repetition of its two halves combined.
  lemma {:induction false} Round(op: (real, real) -> real, out: seq<real>, cur: seq<real>, off: nat, n: nat)
    requires AC(op) && off > 0 && |cur| == 2 * off && |out| == n * (2 * off)
    requires forall i: nat :: i < |out| ==> Repeats(out, cur, i)
    ensures forall l: nat :: l < |out| ==> Xor(l, off) < |out|
    ensures forall l: nat :: l < |out| ==> Repeats(Shuffle(op, out, off), Zip(op, cur[..off], cur[off..]), l)
    ensures Fold(op, Zip(op, cur[..off], cur[off..])) == Fold(op, cur)
  {
    forall l: nat | l < |out| ensures Xor(l, off) < |out| {
      XorResidues(l, off, n);
    }
    forall l: nat | l < |out| ensures Repeats(Shuffle(op, out, off), Zip(op, cur[..off], cur[off..]), l) {
      RoundAt(op, out, cur, off, n, l);
    }
    FoldZip(op, cur[..off], cur[off..]);
    FoldConcat(op, cur[..off], cur[off..]);
    assert cur[..off] + cur[off..] == cur;
  }

  lemma {:induction false} RoundAt(op: (real, real) -> real, out: seq<real>, cur: seq<real>, off: nat, n: nat, l: nat)
    requires AC(op) && off > 0 && |cur| == 2 * off && |out| == n * (2 * off) && l < |out|
    requires forall i: nat :: i < |out| ==> Repeats(out, cur, i) && Xor(i, off) < |out|
    ensures Repeats(Shuffle(op, out, off), Zip(op, cur[..off], cur[off..]), l)
  {
    XorResidues(l, off, n);
    assert Repeats(out, cur, l) && Repeats(out, cur, Xor(l, off));
    assert Comm(op, out[l], out[Xor(l, off)]);
  }

  lemma {:induction false} Start(parts: seq<real>)
    ensures forall l: nat :: l < |parts| ==> Repeats(parts, parts, l)
  {
    forall l: nat | l < |parts| ensures Repeats(parts, parts, l) {
      ModUnique(l, 0, l, |parts|);
    }
  }

  // for (off = R/2; off > 0; off >>= 1) part = op(part, simd_shuffle_xor(part, off)): every lane ends with
  // the fold of all of them.
  method Reduce(op: (real, real) -> real, parts: seq<real>) returns (out: seq<real>)
    requires AC(op) && PowerOfTwo(|parts|)
    ensures |out| == |parts| && forall l :: 0 <= l < |out| ==> out[l] == Fold(op, parts)
  {
    out := parts;
    var off := |parts| / 2;
    ghost var cur, n := parts, 1;
    Start(parts);
    while off > 0
      invariant |out| == |parts| == n * |cur| && PowerOfTwo(|cur|) && off == |cur| / 2
      invariant forall l: nat :: l < |out| ==> Repeats(out, cur, l)
      invariant Fold(op, cur) == Fold(op, parts)
      decreases off
    {
      assert |cur| == 2 * off;
      Round(op, out, cur, off, n);
      TwiceTimes(n, off);
      out := Shuffle(op, out, off);
      cur, n := Zip(op, cur[..off], cur[off..]), 2 * n;
      off := off / 2;
    }
    forall l: nat | l < |out| ensures out[l] == Fold(op, parts) {
      assert Repeats(out, cur, l);
    }
  }

  // ---------- the two folds the kernels use ----------

  function Add(x: real, y: real): real { x + y }

  function Max(x: real, y: real): real { if x > y then x else y }

  ghost function Sum(p: seq<real>): real {
    if p == [] then 0.0 else Sum(p[..|p| - 1]) + p[|p| - 1]
  }

  lemma {:induction false} AddMaxAC()
    ensures AC(Add) && AC(Max)
  {
  }

  lemma {:induction false} FoldAddIsSum(p: seq<real>)
    requires p != []
    ensures Fold(Add, p) == Sum(p)
  {
    if |p| > 1 {
      FoldAddIsSum(p[..|p| - 1]);
    } else {
      assert p[..0] == [];
    }
  }

  lemma {:induction false} FoldMaxIsMaximum(p: seq<real>)
    requires p != []
    ensures Fold(Max, p) in p
    ensures forall i :: 0 <= i < |p| ==> p[i] <= Fold(Max, p)
  {
    if |p| > 1 {
      FoldMaxIsMaximum(p[..|p| - 1]);
    }
  }
}
