// One row of the cross-entropy: the plain loss and gradient, and the forms the code evaluates, which leave the
// target out of the log-sum-exp (src/cross_entropy.rs, kernels/cross_entropy.metal).
module CeRow {
  import opened OnlineSoftmax

  // A logit: finite, or -inf.
  datatype Logit = NegInf | Fin(v: real)

  // exp(z), with exp(-inf) = 0.
  ghost function ExpOf(exp: real -> real, z: Logit): real { if z.Fin? then exp(z.v) else 0.0 }

  // sum over the first n classes of exp(z).
  ghost function Z(exp: real -> real, zs: seq<Logit>, n: nat): real
    requires n <= |zs|
  {
    if n == 0 then 0.0 else Z(exp, zs, n - 1) + ExpOf(exp, zs[n - 1])
  }

  // The classes other than the target, as keys: -inf is not live.
  function KeyOf(z: Logit, target: bool): Key { Key(if z.Fin? then z.v else 0.0, z.Fin? && !target) }

  function Others(zs: seq<Logit>, t: nat): (keys: seq<Key>)
    ensures |keys| == |zs|
  {
    seq(|zs|, j requires 0 <= j < |zs| => KeyOf(zs[j], j == t))
  }

  // sum over the classes other than the target of exp(z).
  ghost function S(exp: real -> real, zs: seq<Logit>, t: nat): real { Mass(exp, Others(zs, t), 0.0, |zs|) }

  lemma {:induction false} ZSplits(exp: real -> real, zs: seq<Logit>, t: nat, n: nat)
    requires IsExp(exp) && n <= |zs| && t < |zs|
    ensures Z(exp, zs, n) == Mass(exp, Others(zs, t), 0.0, n) + if t < n then ExpOf(exp, zs[t]) else 0.0
  {
    if n > 0 {
      ZSplits(exp, zs, t, n - 1);
      var z := zs[n - 1];
      assert Others(zs, t)[n - 1] == KeyOf(z, n - 1 == t);
      if z.Fin? {
        assert z.v - 0.0 == z.v;
      }
    }
  }

  // ---------- the plain loss and gradient ----------

  // logsumexp(z) - z[t]; 0 when every other class is -inf, infinite (no value) when only the target is -inf.
  ghost function Loss(exp: real -> real, ln: real -> real, zs: seq<Logit>, t: nat): (r: LossValue)
    requires t < |zs|
  {
    if S(exp, zs, t) == 0.0 then Finite(0.0)
    else if zs[t].NegInf? then Infinite
    else Finite(ln(Z(exp, zs, |zs|)) - zs[t].v)
  }

  datatype LossValue = Finite(value: real) | Infinite

  // softmax(z)[j] - onehot(t)[j]; nothing to compare when every class is -inf.
  ghost function Grad(exp: real -> real, zs: seq<Logit>, t: nat, j: nat): real
    requires t < |zs| && j < |zs|
  {
    if Z(exp, zs, |zs|) == 0.0 then 0.0
    else ExpOf(exp, zs[j]) / Z(exp, zs, |zs|) - if j == t then 1.0 else 0.0
  }

  // ---------- what the code evaluates ----------

  function Max(a: real, b: real): real { if a > b then a else b }

  function AbsR(x: real): real { if x < 0.0 then -x else x }

  // row_loss: from the walk's state.
  function RowLoss(exp: real -> real, ln: real -> real, m: real, s: real, t: Logit): LossValue {
    if s == 0.0 then Finite(0.0)
    else if t.NegInf? then Infinite
    else
      var negMargin := m + ln(s) - t.v;
      Finite(Max(negMargin, 0.0) + ln(1.0 + exp(-AbsR(negMargin))))
  }

  // sigmoid(lo - t), from exp(-|margin|); an infinite margin leaves e = 0.
  function Q(exp: real -> real, lo: real, t: Logit): real
    requires t.Fin? ==> 1.0 + exp(-AbsR(t.v - lo)) != 0.0
  {
    if t.NegInf? then 1.0
    else
      var margin := t.v - lo;
      var e := exp(-AbsR(margin));
      if margin >= 0.0 then e / (1.0 + e) else 1.0 / (1.0 + e)
  }

  // ce_softmax_grad for one element, before the scale.
  function GradTerm(exp: real -> real, ln: real -> real, m: real, s: real, t: Logit, z: Logit, target: bool): real
    requires t.Fin? ==> 1.0 + exp(-AbsR(t.v - (m + ln(s)))) != 0.0
  {
    if s == 0.0 then 0.0
    else
      var lo := m + ln(s);
      var q := Q(exp, lo, t);
      if target then -q else if z.NegInf? then 0.0 else exp(z.v - lo) * q
  }

  // ---------- they agree ----------

  // The completed first walk: s is the mass of the other classes against the shift m.
  ghost predicate Walked(exp: real -> real, zs: seq<Logit>, t: nat, m: real, s: real) {
    s == Mass(exp, Others(zs, t), m, |zs|)
  }

  // exp of L = m + ln(s) is the sum over the other classes, whatever the shift.
  lemma {:induction false} LoIs(exp: real -> real, ln: real -> real, zs: seq<Logit>, t: nat, m: real, s: real)
    requires IsExp(exp) && IsLog(exp, ln) && Walked(exp, zs, t, m, s)
    ensures s == 0.0 <==> S(exp, zs, t) == 0.0
    ensures s >= 0.0 && (s != 0.0 ==> exp(m + ln(s)) == S(exp, zs, t) > 0.0)
  {
    var keys := Others(zs, t);
    var zeros := seq(|zs|, _ => 0.0);
    MassSign(exp, keys, m, |zs|);
    MassSign(exp, keys, 0.0, |zs|);
    Rescale(exp, keys, zeros, m, 0.0, |zs|);
    if s != 0.0 {
      assert Hom(exp, m, ln(s));
      assert exp(ln(s)) == s;
      Product(exp(m), s, S(exp, zs, t));
    }
  }

  lemma {:induction false} Product(a: real, b: real, c: real)
    requires c == b * a
    ensures a * b == c
  {
  }

  lemma {:induction false} FracOver(u: real, a: real, b: real)
    requires u > 0.0 && b > 0.0 && a == u * b
    ensures u / (1.0 + u) == a / (a + b)
  {
    var q := u / (1.0 + u);
    assert q * (1.0 + u) == u;
    assert q * (a + b) == (q * (1.0 + u)) * b;
    DivIs(q, a, a + b);
  }

  lemma {:induction false} FracUnder(w: real, a: real, b: real)
    requires w > 0.0 && a > 0.0 && b == w * a
    ensures 1.0 / (1.0 + w) == a / (a + b)
  {
    var q := 1.0 / (1.0 + w);
    assert q * (1.0 + w) == 1.0;
    assert q * (a + b) == (q * (1.0 + w)) * a;
    DivIs(q, a, a + b);
  }

  lemma {:induction false} DivIs(q: real, x: real, y: real)
    requires y > 0.0 && q * y == x
    ensures q == x / y
  {
  }

  // exp(x - y) times exp(y) is exp(x).
  lemma {:induction false} ExpApart(exp: real -> real, x: real, y: real)
    requires IsExp(exp)
    ensures exp(x - y) * exp(y) == exp(x) && exp(x - y) > 0.0
  {
    assert Hom(exp, x - y, y);
    assert (x - y) + y == x;
  }

  lemma {:induction false} Positive(exp: real -> real, x: real)
    requires IsExp(exp)
    ensures exp(x) > 0.0 && 1.0 + exp(x) > 1.0
  {
  }

  // The sigmoid is the share of the other classes.
  lemma {:induction false} QIs(exp: real -> real, lo: real, t: real, a: real, b: real)
    requires IsExp(exp) && exp(lo) == a && exp(t) == b
    ensures 1.0 + exp(-AbsR(t - lo)) > 1.0 && a > 0.0 && b > 0.0 && Q(exp, lo, Fin(t)) == a / (a + b)
  {
    Positive(exp, -AbsR(t - lo));
    Positive(exp, lo);
    Positive(exp, t);
    var margin := t - lo;
    var e := exp(-AbsR(margin));
    if margin >= 0.0 {
      assert -AbsR(margin) == lo - t;
      ExpApart(exp, lo, t);
      FracOver(e, a, b);
    } else {
      assert -AbsR(margin) == t - lo;
      ExpApart(exp, t, lo);
      FracUnder(e, a, b);
    }
  }

  lemma {:induction false} Shares(a: real, b: real)
    requires a + b > 0.0
    ensures -(a / (a + b)) == b / (a + b) - 1.0
  {
    SumOver(a, b, a + b);
    DivIs(1.0, a + b, a + b);
  }

  lemma {:induction false} ShareOf(x: real, a: real, y: real, z: real)
    requires z > 0.0 && x * a == y
    ensures x * (a / z) == y / z
  {
    var q := a / z;
    assert q * z == a;
    assert (x * q) * z == x * (q * z);
    DivIs(x * q, y, z);
  }

  lemma {:induction false} ZSign(exp: real -> real, zs: seq<Logit>, n: nat)
    requires IsExp(exp) && n <= |zs|
    ensures Z(exp, zs, n) >= 0.0
    ensures forall j :: 0 <= j < n && Z(exp, zs, n) == 0.0 ==> ExpOf(exp, zs[j]) == 0.0
  {
    if n > 0 {
      ZSign(exp, zs, n - 1);
    }
  }

  lemma {:induction false} NothingElse(exp: real -> real, zs: seq<Logit>, t: nat, j: nat)
    requires IsExp(exp) && t < |zs| && j < |zs| && j != t && S(exp, zs, t) == 0.0
    ensures ExpOf(exp, zs[j]) == 0.0
  {
    MassSign(exp, Others(zs, t), 0.0, |zs|);
    assert !SomeLive(Others(zs, t), |zs|);
    assert !Others(zs, t)[j].live;
  }

  // The gradient written without the cancellation is softmax - onehot, on every row: past any cliff, with -inf
  // logits, and with nothing but the target.
  lemma {:induction false} GradAgrees(exp: real -> real, ln: real -> real, zs: seq<Logit>, t: nat, m: real, s: real, j: nat)
    requires IsExp(exp) && IsLog(exp, ln) && t < |zs| && j < |zs| && Walked(exp, zs, t, m, s)
    ensures zs[t].Fin? ==> 1.0 + exp(-AbsR(zs[t].v - (m + ln(s)))) != 0.0
    ensures GradTerm(exp, ln, m, s, zs[t], zs[j], j == t) == Grad(exp, zs, t, j)
  {
    LoIs(exp, ln, zs, t, m, s);
    ZSplits(exp, zs, t, |zs|);
    if zs[t].Fin? {
      Positive(exp, -AbsR(zs[t].v - (m + ln(s))));
      Positive(exp, zs[t].v);
    }
    if s == 0.0 {
      if j != t {
        NothingElse(exp, zs, t, j);
      }
      DeadGrad(exp, zs, t, j);
    } else {
      LiveGrad(exp, m + ln(s), S(exp, zs, t), zs[t], zs[j], j == t);
    }
  }

  lemma {:induction false} DeadGrad(exp: real -> real, zs: seq<Logit>, t: nat, j: nat)
    requires t < |zs| && j < |zs| && Z(exp, zs, |zs|) == ExpOf(exp, zs[t]) && (j != t ==> ExpOf(exp, zs[j]) == 0.0)
    requires Z(exp, zs, |zs|) >= 0.0
    ensures Grad(exp, zs, t, j) == 0.0
  {
    if Z(exp, zs, |zs|) > 0.0 {
      DivIs(if j == t then 1.0 else 0.0, ExpOf(exp, zs[j]), Z(exp, zs, |zs|));
    }
  }

  // One element of a row with live classes besides the target: a is their sum, lo its logarithm.
  lemma {:induction false} LiveGrad(exp: real -> real, lo: real, a: real, zt: Logit, zj: Logit, target: bool)
    requires IsExp(exp) && exp(lo) == a && (target ==> zj == zt)
    ensures zt.Fin? ==> 1.0 + exp(-AbsR(zt.v - lo)) != 0.0
    ensures var b := ExpOf(exp, zt);
            var q := Q(exp, lo, zt);
            a > 0.0 && b >= 0.0
            && (if target then -q else if zj.NegInf? then 0.0 else exp(zj.v - lo) * q) ==
               ExpOf(exp, zj) / (a + b) - if target then 1.0 else 0.0
  {
    Positive(exp, lo);
    var b := ExpOf(exp, zt);
    if zt.Fin? {
      QIs(exp, lo, zt.v, a, b);
    } else {
      DivIs(1.0, a, a + b);
    }
    Shares(a, b);
    if !target {
      if zj.Fin? {
        ExpApart(exp, zj.v, lo);
        ShareOf(exp(zj.v - lo), a, exp(zj.v), a + b);
      } else {
        DivIs(0.0, 0.0, a + b);
      }
    }
  }

  lemma {:induction false} LnIs(exp: real -> real, ln: real -> real, x: real, y: real)
    requires IsLog(exp, ln) && exp(x) == y
    ensures x == ln(y)
  {
  }

  // softplus of the negated margin is the log of one plus its exponential.
  lemma {:induction false} Softplus(exp: real -> real, ln: real -> real, x: real)
    requires IsExp(exp) && IsLog(exp, ln)
    ensures Max(x, 0.0) + ln(1.0 + exp(-AbsR(x))) == ln(1.0 + exp(x))
  {
    Positive(exp, -x);
    if x >= 0.0 {
      var y := ln(1.0 + exp(-x));
      assert exp(y) == 1.0 + exp(-x);
      assert Hom(exp, x, y) && Hom(exp, x, -x);
      assert x + -x == 0.0;
      Expand(exp(x), exp(-x));
      LnIs(exp, ln, x + y, 1.0 + exp(x));
    }
  }

  lemma {:induction false} Expand(a: real, b: real)
    requires a * b == 1.0
    ensures a * (1.0 + b) == 1.0 + a
  {
  }

  // The walk's state gives the plain loss.
  lemma {:induction false} LossAgrees(exp: real -> real, ln: real -> real, zs: seq<Logit>, t: nat, m: real, s: real)
    requires IsExp(exp) && IsLog(exp, ln) && t < |zs| && Walked(exp, zs, t, m, s)
    ensures RowLoss(exp, ln, m, s, zs[t]) == Loss(exp, ln, zs, t)
  {
    LoIs(exp, ln, zs, t, m, s);
    ZSplits(exp, zs, t, |zs|);
    if s != 0.0 && zs[t].Fin? {
      var lo, zt, a, z := m + ln(s), zs[t].v, S(exp, zs, t), Z(exp, zs, |zs|);
      var b, u := exp(zt), exp(lo - zt);
      Positive(exp, zt);
      ExpApart(exp, lo, zt);
      Softplus(exp, ln, lo - zt);
      ExpApart(exp, ln(z), zt);
      assert exp(ln(z)) == z;
      SameFactor(exp(ln(z) - zt), 1.0 + u, b, z, u, a);
      LnIs(exp, ln, ln(z) - zt, 1.0 + u);
    }
  }

  lemma {:induction false} SameFactor(x: real, y: real, b: real, z: real, u: real, a: real)
    requires b > 0.0 && x * b == z && z == a + b && u * b == a && y == 1.0 + u
    ensures x == y
  {
    assert y * b == z;
    assert (x - y) * b == 0.0;
  }

  ghost function GradSum(exp: real -> real, zs: seq<Logit>, t: nat, n: nat): real
    requires t < |zs| && n <= |zs|
  {
    if n == 0 then 0.0 else GradSum(exp, zs, t, n - 1) + Grad(exp, zs, t, n - 1)
  }

  lemma {:induction false} GradSumIs(exp: real -> real, zs: seq<Logit>, t: nat, n: nat)
    requires t < |zs| && n <= |zs| && Z(exp, zs, |zs|) > 0.0
    ensures GradSum(exp, zs, t, n) == Z(exp, zs, n) / Z(exp, zs, |zs|) - if t < n then 1.0 else 0.0
  {
    if n > 0 {
      GradSumIs(exp, zs, t, n - 1);
      SumOver(Z(exp, zs, n - 1), ExpOf(exp, zs[n - 1]), Z(exp, zs, |zs|));
    }
  }

  lemma {:induction false} SumOver(a: real, b: real, z: real)
    requires z > 0.0
    ensures (a + b) / z == a / z + b / z
  {
    assert (a / z + b / z) * z == a + b;
    DivIs(a / z + b / z, a + b, z);
  }

  lemma {:induction false} ZeroSum(exp: real -> real, zs: seq<Logit>, t: nat, n: nat)
    requires t < |zs| && n <= |zs| && Z(exp, zs, |zs|) == 0.0
    ensures GradSum(exp, zs, t, n) == 0.0
  {
    if n > 0 {
      ZeroSum(exp, zs, t, n - 1);
    }
  }

  // Every row's gradient sums to zero.
  lemma {:induction false} RowSumsToZero(exp: real -> real, zs: seq<Logit>, t: nat)
    requires IsExp(exp) && t < |zs|
    ensures GradSum(exp, zs, t, |zs|) == 0.0
  {
    ZSign(exp, zs, |zs|);
    if Z(exp, zs, |zs|) > 0.0 {
      GradSumIs(exp, zs, t, |zs|);
      DivIs(1.0, Z(exp, zs, |zs|), Z(exp, zs, |zs|));
    } else {
      ZeroSum(exp, zs, t, |zs|);
    }
  }

  // A row whose other classes are all -inf has loss 0 and no gradient.
  lemma {:induction false} AloneRow(exp: real -> real, ln: real -> real, zs: seq<Logit>, t: nat, j: nat)
    requires IsExp(exp) && IsLog(exp, ln) && t < |zs| && j < |zs| && forall i :: 0 <= i < |zs| && i != t ==> zs[i].NegInf?
    ensures Loss(exp, ln, zs, t) == Finite(0.0) && Grad(exp, zs, t, j) == 0.0
  {
    var keys := Others(zs, t);
    MassSign(exp, keys, 0.0, |zs|);
    assert !SomeLive(keys, |zs|);
    GradAgrees(exp, ln, zs, t, 0.0, Mass(exp, keys, 0.0, |zs|), j);
  }
}
