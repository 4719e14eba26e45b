// The algebra every online-softmax kernel rests on: shifted sums of exponentials over the live keys
// of one attention row, and how they change when the running maximum moves.
module OnlineSoftmax {

  // ---------- the exponential ----------

  ghost predicate Hom(exp: real -> real, a: real, b: real) {
    exp(a + b) == exp(a) * exp(b)
  }

  // What the proofs use of exp: exp(0) = 1, positive, and a sum becomes a product.
  ghost predicate IsExp(exp: real -> real) {
    exp(0.0) == 1.0 && (forall a :: exp(a) > 0.0) && forall a, b :: Hom(exp, a, b)
  }

  // ln undoes exp, both ways.
  ghost predicate IsLog(exp: real -> real, ln: real -> real) {
    (forall x :: x > 0.0 ==> exp(ln(x)) == x) && forall y :: ln(exp(y)) == y
  }

  lemma {:induction false} ExpShift(exp: real -> real, s: real, m: real, m': real)
    requires IsExp(exp)
    ensures exp(s - m') == exp(s - m) * exp(m - m')
  {
    assert Hom(exp, s - m, m - m');
    assert (s - m) + (m - m') == s - m';
  }

  // ---------- one attention row ----------

  // A key as one query row sees it: its scaled score, and whether the mask keeps it.
  datatype Key = Key(score: real, live: bool)

  ghost function Weight(exp: real -> real, k: Key, m: real): real {
    if k.live then exp(k.score - m) else 0.0
  }

  // Sum over the first n keys of weight * value, the weights taken against the shift m.
  ghost function Mix(exp: real -> real, row: seq<Key>, v: seq<real>, m: real, n: nat): real
    requires n <= |row| && n <= |v|
  {
    if n == 0 then 0.0 else Mix(exp, row, v, m, n - 1) + Weight(exp, row[n - 1], m) * v[n - 1]
  }

  // Sum over the first n keys of the weights.
  ghost function Mass(exp: real -> real, row: seq<Key>, m: real, n: nat): real
    requires n <= |row|
  {
    if n == 0 then 0.0 else Mass(exp, row, m, n - 1) + Weight(exp, row[n - 1], m)
  }

  ghost predicate SomeLive(row: seq<Key>, n: nat)
    requires n <= |row|
  {
    exists t :: 0 <= t < n && row[t].live
  }

  // The attention output of one row and one value column: the softmax of the live scores against the
  // values, and zero for a row that keeps no key.
  ghost function Attend(exp: real -> real, row: seq<Key>, v: seq<real>): real
    requires |v| == |row|
  {
    var mass := Mass(exp, row, 0.0, |row|);
    if mass == 0.0 then 0.0 else Mix(exp, row, v, 0.0, |row|) / mass
  }

  lemma {:induction false} MassSign(exp: real -> real, row: seq<Key>, m: real, n: nat)
    requires IsExp(exp) && n <= |row|
    ensures Mass(exp, row, m, n) >= 0.0
    ensures Mass(exp, row, m, n) > 0.0 <==> SomeLive(row, n)
  {
    if n > 0 {
      MassSign(exp, row, m, n - 1);
      if row[n - 1].live {
        assert Weight(exp, row[n - 1], m) > 0.0;
      } else if SomeLive(row, n) {
        var t :| 0 <= t < n && row[t].live;
        assert t < n - 1;
      }
    }
  }

  // Keys the mask drops add nothing, whatever the shift.
  lemma {:induction false} DeadSpan(exp: real -> real, row: seq<Key>, v: seq<real>, m: real, lo: nat, hi: nat)
    requires lo <= hi <= |row| && hi <= |v|
    requires forall t :: lo <= t < hi ==> !row[t].live
    ensures Mix(exp, row, v, m, hi) == Mix(exp, row, v, m, lo)
    ensures Mass(exp, row, m, hi) == Mass(exp, row, m, lo)
    decreases hi
  {
    if lo < hi {
      DeadSpan(exp, row, v, m, lo, hi - 1);
    }
  }

  // Moving the shift from m to m' multiplies both sums by exp(m - m').
  lemma {:induction false} Rescale(exp: real -> real, row: seq<Key>, v: seq<real>, m: real, m': real, n: nat)
    requires IsExp(exp) && n <= |row| && n <= |v|
    ensures Mix(exp, row, v, m', n) == Mix(exp, row, v, m, n) * exp(m - m')
    ensures Mass(exp, row, m', n) == Mass(exp, row, m, n) * exp(m - m')
  {
    if n > 0 {
      Rescale(exp, row, v, m, m', n - 1);
      ExpShift(exp, row[n - 1].score, m, m');
      var w, w', c := Weight(exp, row[n - 1], m), Weight(exp, row[n - 1], m'), exp(m - m');
      assert w' == w * c;
      Distribute(Mix(exp, row, v, m, n - 1), w, v[n - 1], c);
      Distribute(Mass(exp, row, m, n - 1), w, 1.0, c);
    }
  }

  function Scaled(x: real, a: real): real { x * a }

  lemma {:induction false} Distribute(a: real, w: real, v: real, c: real)
    ensures (a + w * v) * c == a * c + (w * c) * v
  {
  }

  // The rescale the kernels use: exactly zero while the row has seen no live key, exp(m - m') after.
  lemma {:induction false} RescaleOrZero(exp: real -> real, row: seq<Key>, v: seq<real>, m: real, m': real, n: nat, alpha: real)
    requires IsExp(exp) && n <= |row| && n <= |v|
    requires alpha == if Mass(exp, row, m, n) > 0.0 then exp(m - m') else 0.0
    ensures Mix(exp, row, v, m', n) == Mix(exp, row, v, m, n) * alpha
    ensures Mass(exp, row, m', n) == Mass(exp, row, m, n) * alpha
  {
    MassSign(exp, row, m, n);
    if Mass(exp, row, m, n) > 0.0 {
      Rescale(exp, row, v, m, m', n);
    } else {
      DeadSpan(exp, row, v, m, 0, n);
      DeadSpan(exp, row, v, m', 0, n);
    }
  }

  // The normalised quotient does not depend on the shift the sums were taken against.
  lemma {:induction false} NormaliseAnyShift(exp: real -> real, row: seq<Key>, v: seq<real>, m: real)
    requires IsExp(exp) && |v| == |row|
    ensures var l := Mass(exp, row, m, |row|);
            Mix(exp, row, v, m, |row|) * (if l > 0.0 then 1.0 / l else 0.0) == Attend(exp, row, v)
    ensures Attend(exp, row, v) == 0.0 || SomeLive(row, |row|)
  {
    var n := |row|;
    MassSign(exp, row, m, n);
    MassSign(exp, row, 0.0, n);
    if Mass(exp, row, m, n) > 0.0 {
      Rescale(exp, row, v, m, 0.0, n);
      Cancel(Mix(exp, row, v, m, n), Mass(exp, row, m, n), exp(m));
    }
  }

  lemma {:induction false} Cancel(a: real, l: real, c: real)
    requires l > 0.0 && c > 0.0
    ensures l * c > 0.0
    ensures a * (1.0 / l) == (a * c) / (l * c)
  {
    var q := a * (1.0 / l);
    assert q == a / l;
    assert q * l == a;
    assert q * (l * c) == a * c;
  }

  // ---------- the reference's own form ----------

  // The largest live score of the first n keys (any value when there is none).
  ghost function MaxLive(row: seq<Key>, n: nat): real
    requires n <= |row|
  {
    if n == 0 then 0.0
    else if !row[n - 1].live then MaxLive(row, n - 1)
    else if SomeLive(row, n - 1) && MaxLive(row, n - 1) >= row[n - 1].score then MaxLive(row, n - 1)
    else row[n - 1].score
  }

  // The reference: exponentials against the row maximum, their sum, then one division.
  ghost function Reference(exp: real -> real, row: seq<Key>, v: seq<real>): real
    requires |v| == |row|
  {
    var n := |row|;
    if !SomeLive(row, n) then 0.0
    else var l := Mass(exp, row, MaxLive(row, n), n);
         if l > 0.0 then Mix(exp, row, v, MaxLive(row, n), n) * (1.0 / l) else 0.0
  }

  lemma {:induction false} ReferenceIsAttend(exp: real -> real, row: seq<Key>, v: seq<real>)
    requires IsExp(exp) && |v| == |row|
    ensures Reference(exp, row, v) == Attend(exp, row, v)
  {
    NormaliseAnyShift(exp, row, v, MaxLive(row, |row|));
    MassSign(exp, row, MaxLive(row, |row|), |row|);
  }

  // Once a live key is seen, a sum taken against the attained maximum is at least 1: the maximum's own
  // exponential is exp(0).
  lemma {:induction false} MassAtLeastOne(exp: real -> real, row: seq<Key>, m: real, n: nat, t: nat)
    requires IsExp(exp) && t < n <= |row|
    requires row[t].live && row[t].score == m
    ensures Mass(exp, row, m, n) >= 1.0
  {
    MassSign(exp, row, m, n - 1);
    if t == n - 1 {
      assert row[t].score - m == 0.0;
    } else {
      MassAtLeastOne(exp, row, m, n - 1, t);
      assert Weight(exp, row[n - 1], m) >= 0.0;
    }
  }

  // ---------- the running maximum ----------

  // m is negMax raised by the live scores among the first n keys.
  ghost predicate RunningMax(row: seq<Key>, negMax: real, m: real, n: nat)
    requires n <= |row|
  {
    m >= negMax
    && (forall t :: 0 <= t < n && row[t].live ==> row[t].score <= m)
    && (m == negMax || exists t :: 0 <= t < n && row[t].live && row[t].score == m)
  }

  ghost predicate Attained(row: seq<Key>, m: real, n: nat)
    requires n <= |row|
  {
    exists t :: 0 <= t < n && row[t].live && row[t].score == m
  }

  // With the seed not above any live score, the running maximum of a row that has seen a live key is one
  // of its scores, and the sum against it is at least 1.
  lemma {:induction false} SeenMeansAtLeastOne(exp: real -> real, row: seq<Key>, negMax: real, m: real, n: nat)
    requires IsExp(exp) && n <= |row| && RunningMax(row, negMax, m, n) && SomeLive(row, n)
    requires forall t :: 0 <= t < n && row[t].live ==> negMax <= row[t].score
    ensures Attained(row, m, n) && Mass(exp, row, m, n) >= 1.0
  {
    if m == negMax {
      var t :| 0 <= t < n && row[t].live;
      assert row[t].score == m;
    }
    var t :| 0 <= t < n && row[t].live && row[t].score == m;
    MassAtLeastOne(exp, row, m, n, t);
  }

  // ---------- visiting order ----------

  ghost predicate Within(visit: seq<nat>, n: nat) {
    forall i :: 0 <= i < |visit| ==> visit[i] < n
  }

  ghost predicate Distinct(visit: seq<nat>) {
    forall i, j :: 0 <= i < j < |visit| ==> visit[i] != visit[j]
  }

  // f summed over the first n visits, and over the first n indices.
  ghost function VisitSum(f: nat -> real, visit: seq<nat>, n: nat): real
    requires n <= |visit|
  {
    if n == 0 then 0.0 else VisitSum(f, visit, n - 1) + f(visit[n - 1])
  }

  ghost function RangeSum(f: nat -> real, n: nat): real {
    if n == 0 then 0.0 else RangeSum(f, n - 1) + f(n - 1)
  }

  // Taking the i-th visit out takes its term out of the sum.
  lemma {:induction false} VisitOut(f: nat -> real, visit: seq<nat>, i: nat, rest: seq<nat>, n: nat)
    requires i < |visit| && |rest| == |visit| - 1 && n < |visit|
    requires forall j :: 0 <= j < |rest| ==> rest[j] == visit[if j < i then j else j + 1]
    ensures if n < i then VisitSum(f, visit, n) == VisitSum(f, rest, n)
            else VisitSum(f, visit, n + 1) == VisitSum(f, rest, n) + f(visit[i])
  {
    if n > 0 {
      VisitOut(f, visit, i, rest, n - 1);
    }
  }

  lemma {:induction false} RestOf(visit: seq<nat>, i: nat, n: nat) returns (rest: seq<nat>)
    requires i < |visit| && Distinct(visit) && visit[i] == n - 1 && Within(visit, n)
    ensures |rest| == |visit| - 1 && Distinct(rest) && Within(rest, n - 1)
    ensures forall j :: 0 <= j < |rest| ==> rest[j] == visit[if j < i then j else j + 1]
    ensures forall t :: t in visit && t != n - 1 ==> t in rest
  {
    rest := visit[..i] + visit[i + 1..];
    forall t | t in visit && t != n - 1 ensures t in rest {
      var j :| 0 <= j < |visit| && visit[j] == t;
      assert t == rest[if j < i then j else j - 1];
    }
  }

  // Every index below n that is not visited has a zero term.
  ghost predicate Covered(f: nat -> real, visit: seq<nat>, n: nat) {
    forall t: nat :: t < n && t !in visit ==> f(t) == 0.0
  }

  lemma {:induction false} TakeLast(f: nat -> real, visit: seq<nat>, n: nat) returns (rest: seq<nat>)
    requires n > 0 && Within(visit, n) && Distinct(visit) && Covered(f, visit, n) && n - 1 in visit
    ensures Within(rest, n - 1) && Distinct(rest) && Covered(f, rest, n - 1)
    ensures VisitSum(f, visit, |visit|) == VisitSum(f, rest, |rest|) + f(n - 1)
  {
    var i :| 0 <= i < |visit| && visit[i] == n - 1;
    rest := RestOf(visit, i, n);
    VisitOut(f, visit, i, rest, |rest|);
    forall t: nat | t < n - 1 && t !in rest ensures f(t) == 0.0 {
      assert t !in visit;
    }
  }

  // Distinct visits that reach every index with a nonzero term sum the whole range.
  lemma {:induction false} AnyOrder(f: nat -> real, visit: seq<nat>, n: nat)
    requires Within(visit, n) && Distinct(visit) && Covered(f, visit, n)
    ensures VisitSum(f, visit, |visit|) == RangeSum(f, n)
    decreases n
  {
    if n > 0 {
      if n - 1 in visit {
        var rest := TakeLast(f, visit, n);
        AnyOrder(f, rest, n - 1);
      } else {
        NotLast(visit, n);
        AnyOrder(f, visit, n - 1);
      }
    }
  }

  lemma {:induction false} NotLast(visit: seq<nat>, n: nat)
    requires n > 0 && Within(visit, n) && n - 1 !in visit
    ensures Within(visit, n - 1)
  {
    forall i | 0 <= i < |visit| ensures visit[i] < n - 1 {
      assert visit[i] in visit;
    }
  }

  // The row and column a kernel sees, in visiting order.
  ghost function Visited<T>(xs: seq<T>, visit: seq<nat>): (ys: seq<T>)
    requires Within(visit, |xs|)
    ensures |ys| == |visit| && forall i :: 0 <= i < |visit| ==> ys[i] == xs[visit[i]]
  {
    seq(|visit|, i requires 0 <= i < |visit| => xs[visit[i]])
  }

  ghost function Term(exp: real -> real, row: seq<Key>, v: seq<real>, m: real): nat -> real
    requires |v| == |row|
  {
    (t: nat) => if t < |row| then Weight(exp, row[t], m) * v[t] else 0.0
  }

  lemma {:induction false} MixIsRangeSum(exp: real -> real, row: seq<Key>, v: seq<real>, m: real, n: nat)
    requires |v| == |row| && n <= |row|
    ensures Mix(exp, row, v, m, n) == RangeSum(Term(exp, row, v, m), n)
  {
    if n > 0 {
      MixIsRangeSum(exp, row, v, m, n - 1);
    }
  }

  lemma {:induction false} VisitedMixIsVisitSum(exp: real -> real, row: seq<Key>, v: seq<real>, m: real,
                                                visit: seq<nat>, n: nat)
    requires |v| == |row| && n <= |visit| && Within(visit, |row|)
    ensures Mix(exp, Visited(row, visit), Visited(v, visit), m, n) == VisitSum(Term(exp, row, v, m), visit, n)
  {
    if n > 0 {
      VisitedMixIsVisitSum(exp, row, v, m, visit, n - 1);
    }
  }

  lemma {:induction false} MassIsMixOfOnes(exp: real -> real, row: seq<Key>, v: seq<real>, m: real, n: nat)
    requires n <= |row| && n <= |v| && forall i :: 0 <= i < n ==> v[i] == 1.0
    ensures Mass(exp, row, m, n) == Mix(exp, row, v, m, n)
  {
    if n > 0 {
      MassIsMixOfOnes(exp, row, v, m, n - 1);
    }
  }

  lemma {:induction false} VisitedMix(exp: real -> real, row: seq<Key>, v: seq<real>, m: real, visit: seq<nat>)
    requires |v| == |row| && Within(visit, |row|) && Distinct(visit)
    requires forall t :: 0 <= t < |row| && row[t].live ==> t in visit
    ensures Mix(exp, Visited(row, visit), Visited(v, visit), m, |visit|) == Mix(exp, row, v, m, |row|)
  {
    VisitedMixIsVisitSum(exp, row, v, m, visit, |visit|);
    AnyOrder(Term(exp, row, v, m), visit, |row|);
    MixIsRangeSum(exp, row, v, m, |row|);
  }

  // Attention does not depend on the order keys are visited in, nor on masked keys being visited.
  lemma {:induction false} VisitOrderIrrelevant(exp: real -> real, row: seq<Key>, v: seq<real>, visit: seq<nat>)
    requires |v| == |row| && Within(visit, |row|) && Distinct(visit)
    requires forall t :: 0 <= t < |row| && row[t].live ==> t in visit
    ensures Attend(exp, Visited(row, visit), Visited(v, visit)) == Attend(exp, row, v)
  {
    var ones := seq(|row|, _ => 1.0);
    VisitedMix(exp, row, v, 0.0, visit);
    VisitedMix(exp, row, ones, 0.0, visit);
    MassIsMixOfOnes(exp, row, ones, 0.0, |row|);
    MassIsMixOfOnes(exp, Visited(row, visit), Visited(ones, visit), 0.0, |visit|);
  }
}
