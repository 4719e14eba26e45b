// The matrix-unit attention body (kernels/attn_tiled.h): causal and encoder key ranges, a rounded
// probability tile, and the log-sum-exp output.
module AttnTiled {
  import opened Common
  import opened OnlineSoftmax
  import opened Butterfly
  import opened AttnMask
  import opened Lanes

  // ---------- key ranges ----------

  datatype Mode = Causal(qOff: nat, kvOff: nat) | Encoder(window: nat)

  // Which of the first tkv keys query t_q attends to: causal by absolute position; in the encoder nothing
  // for a padding row, else the symmetric window (0: all keys).
  predicate Live(mode: Mode, tkv: nat, t_q: nat, t: nat) {
    match mode
    case Causal(qOff, kvOff) => kvOff + t <= qOff + t_q
    case Encoder(window) => t_q < tkv && (window == 0 || (t + window >= t_q && t <= t_q + window))
  }

  function TLo(mode: Mode, q0: nat): nat {
    match mode
    case Causal(_, _) => 0
    case Encoder(window) => if window == 0 || q0 < window then 0 else q0 - window
  }

  function TEnd(mode: Mode, tkv: nat, q0: nat, nq: nat): nat
    requires nq > 0
  {
    match mode
    case Causal(qOff, kvOff) =>
      var q_hi := qOff + q0 + nq - 1;
      if q_hi >= kvOff then if tkv < q_hi - kvOff + 1 then tkv else q_hi - kvOff + 1 else 0
    case Encoder(window) =>
      var q_hi := q0 + nq - 1;
      if q0 >= tkv then 0
      else if window == 0 then tkv
      else if tkv < q_hi + window + 1 then tkv else q_hi + window + 1
  }

  // The walked range holds every live key of every row of the tile, and stays inside the live prefix.
  lemma {:induction false} RangeCoversLive(mode: Mode, tkv: nat, q0: nat, nq: nat, t_q: nat, t: nat)
    requires nq > 0 && q0 <= t_q < q0 + nq && t < tkv && Live(mode, tkv, t_q, t)
    ensures TLo(mode, q0) <= t < TEnd(mode, tkv, q0, nq) <= tkv
  {
  }

  lemma {:induction false} OutsideIsDead(mode: Mode, tkv: nat, q0: nat, nq: nat, t_q: nat, t: nat)
    requires nq > 0 && q0 <= t_q < q0 + nq && t < tkv && !(TLo(mode, q0) <= t < TEnd(mode, tkv, q0, nq))
    ensures !Live(mode, tkv, t_q, t)
  {
  }

  // A causal range walks exactly the keys of the tile's last row.
  lemma {:induction false} CausalRangeIsTight(qOff: nat, kvOff: nat, tkv: nat, q0: nat, nq: nat, last: nat)
    requires nq > 0 && last == q0 + nq - 1
    ensures forall t: nat :: t < tkv ==>
      (t < TEnd(Causal(qOff, kvOff), tkv, q0, nq) <==> Live(Causal(qOff, kvOff), tkv, last, t))
  {
  }

  // The kernel's per-column mask: row r of nq rows from q0, column t of the walked range.
  predicate KernelLive(mode: Mode, tkv: nat, q0: nat, nq: nat, r: nat, t: nat)
    requires nq > 0
  {
    r < nq && t < TEnd(mode, tkv, q0, nq) && Live(mode, tkv, q0 + r, t)
  }

  // ---------- rounded weights ----------

  // What the stored probability type does to a weight: nonnegative, and exact at 0 and 1.
  ghost predicate IsRounding(rnd: real -> real) {
    rnd(0.0) == 0.0 && rnd(1.0) == 1.0 && forall x :: x >= 0.0 ==> rnd(x) >= 0.0
  }

  ghost predicate Identity(rnd: real -> real) { forall x :: rnd(x) == x }

  // The seed of the running maximum is not above any live score.
  ghost predicate SeedBelow(row: seq<Key>, negMax: real) {
    forall t :: 0 <= t < |row| && row[t].live ==> negMax <= row[t].score
  }

  ghost function Total(w: seq<real>, n: nat): real
    requires n <= |w|
  {
    if n == 0 then 0.0 else Total(w, n - 1) + w[n - 1]
  }

  ghost function Blend(w: seq<real>, v: seq<real>, n: nat): real
    requires n <= |w| && n <= |v|
  {
    if n == 0 then 0.0 else Blend(w, v, n - 1) + w[n - 1] * v[n - 1]
  }

  ghost function Scale(w: seq<real>, a: real): (w': seq<real>)
    ensures |w'| == |w| && forall i :: 0 <= i < |w| ==> w'[i] == Scaled(w[i], a)
  {
    seq(|w|, i requires 0 <= i < |w| => Scaled(w[i], a))
  }

  lemma {:induction false} ScaleSums(w: seq<real>, a: real, v: seq<real>, n: nat)
    requires n <= |w| && n <= |v|
    ensures Total(Scale(w, a), n) == Scaled(Total(w, n), a)
    ensures Blend(Scale(w, a), v, n) == Scaled(Blend(w, v, n), a)
  {
    if n > 0 {
      ScaleSums(w, a, v, n - 1);
      Distribute(Blend(w, v, n - 1), w[n - 1], v[n - 1], a);
    }
  }

  lemma {:induction false} ConcatSums(w: seq<real>, b: seq<real>, v: seq<real>, k: nat)
    requires k <= |b| && |w| + k <= |v|
    ensures Total(w + b, |w| + k) == Total(w, |w|) + Total(b, k)
    ensures Blend(w + b, v, |w| + k) == Blend(w, v, |w|) + Blend(b, v[|w|..], k)
    decreases k
  {
    if k == 0 {
      SamePrefix(w, w + b, v, |w|);
    } else {
      ConcatSums(w, b, v, k - 1);
    }
  }

  lemma {:induction false} SamePrefix(w: seq<real>, w': seq<real>, v: seq<real>, n: nat)
    requires n <= |w| && n <= |w'| && n <= |v| && forall i :: 0 <= i < n ==> w[i] == w'[i]
    ensures Total(w', n) == Total(w, n) && Blend(w', v, n) == Blend(w, v, n)
  {
    if n > 0 {
      SamePrefix(w, w', v, n - 1);
    }
  }

  lemma {:induction false} TotalSign(w: seq<real>, n: nat)
    requires n <= |w| && forall i :: 0 <= i < |w| ==> w[i] >= 0.0
    ensures Total(w, n) >= 0.0
    ensures forall i :: 0 <= i < n ==> w[i] <= Total(w, n)
    ensures (forall i :: 0 <= i < n ==> w[i] == 0.0) ==> Total(w, n) == 0.0
  {
    if n > 0 {
      TotalSign(w, n - 1);
    }
  }

  // A row's state after its first |w| keys: w[t] is what key t contributes so far.
  ghost predicate RowIs(row: seq<Key>, negMax: real, w: seq<real>, m: real, l: real) {
    |w| <= |row|
    && RunningMax(row, negMax, m, |w|)
    && l == Total(w, |w|)
    && (forall t :: 0 <= t < |w| ==> w[t] >= 0.0 && (!row[t].live ==> w[t] == 0.0))
    && (SomeLive(row, |w|) ==> l >= 1.0)
  }

  // With weights stored exactly, each is the key's own exponential.
  ghost predicate ExactIs(exp: real -> real, row: seq<Key>, w: seq<real>, m: real) {
    |w| <= |row| && forall t :: 0 <= t < |w| ==> w[t] == Weight(exp, row[t], m)
  }

  // A block's stored weights against the maximum m.
  ghost function BlockWeights(exp: real -> real, rnd: real -> real, row: seq<Key>, lo: nat, hi: nat, m: real): (b: seq<real>)
    requires lo <= hi <= |row|
    ensures |b| == hi - lo && forall i: nat :: i < |b| ==> b[i] == rnd(Weight(exp, row[lo + i], m))
  {
    seq(hi - lo, i requires 0 <= i < hi - lo => rnd(Weight(exp, row[lo + i], m)))
  }

  // The weights after a block: what was there rescaled, then the block's own.
  ghost function NextWeights(exp: real -> real, rnd: real -> real, row: seq<Key>, w: seq<real>, alpha: real,
                             m': real, n': nat): (w': seq<real>)
    requires |w| <= n' <= |row|
    ensures |w'| == n'
  {
    Scale(w, alpha) + BlockWeights(exp, rnd, row, |w|, n', m')
  }

  lemma {:induction false} NextTotal(exp: real -> real, rnd: real -> real, row: seq<Key>, w: seq<real>, alpha: real, m': real, n': nat)
    requires |w| <= n' <= |row|
    ensures var b := BlockWeights(exp, rnd, row, |w|, n', m');
            Total(NextWeights(exp, rnd, row, w, alpha, m', n'), n') == Scaled(Total(w, |w|), alpha) + Total(b, |b|)
  {
    var b := BlockWeights(exp, rnd, row, |w|, n', m');
    var zeros := seq(|row|, _ => 0.0);
    ScaleSums(w, alpha, zeros, |w|);
    ConcatSums(Scale(w, alpha), b, zeros, |b|);
  }

  // mx is negMax raised by the live scores of keys [lo, hi).
  ghost predicate BlockMax(row: seq<Key>, negMax: real, mx: real, lo: nat, hi: nat)
    requires lo <= hi <= |row|
  {
    mx >= negMax
    && (forall t :: lo <= t < hi && row[t].live ==> row[t].score <= mx)
    && (mx == negMax || exists t :: lo <= t < hi && row[t].live && row[t].score == mx)
  }

  lemma {:induction false} NextMax(row: seq<Key>, negMax: real, m: real, mx: real, n: nat, n': nat)
    requires n <= n' <= |row| && RunningMax(row, negMax, m, n) && BlockMax(row, negMax, mx, n, n')
    ensures RunningMax(row, negMax, Max(m, mx), n')
  {
    if Max(m, mx) != negMax {
      if m > mx {
        var t :| 0 <= t < n && row[t].live && row[t].score == m;
        assert row[t].score == Max(m, mx);
      } else {
        var t :| n <= t < n' && row[t].live && row[t].score == mx;
        assert row[t].score == Max(m, mx);
      }
    }
  }

  // The sum of the next weights is at least 1 once any live key is among them: the maximum's own stored
  // weight is 1, or the maximum did not move and the old sum was at least 1.
  lemma {:induction false} NextAtLeastOne(exp: real -> real, rnd: real -> real, row: seq<Key>, negMax: real, w: seq<real>, m: real, l: real,
                       m': real, n': nat, alpha: real, w': seq<real>)
    requires IsExp(exp) && IsRounding(rnd) && |w| <= n' <= |row|
    requires RowIs(row, negMax, w, m, l) && RunningMax(row, negMax, m', n') && m' >= m
    requires SeedBelow(row, negMax)
    requires alpha == if l > 0.0 then exp(m - m') else 0.0
    requires w' == NextWeights(exp, rnd, row, w, alpha, m', n')
    requires forall t :: 0 <= t < n' ==> w'[t] >= 0.0
    requires SomeLive(row, n')
    ensures Total(w', n') >= 1.0
  {
    SeenMeansAtLeastOne(exp, row, negMax, m', n');
    var t :| 0 <= t < n' && row[t].live && row[t].score == m';
    if t >= |w| {
      var b := BlockWeights(exp, rnd, row, |w|, n', m');
      assert w'[t] == b[t - |w|];
      assert b[t - |w|] == rnd(Weight(exp, row[t], m'));
      assert row[t].score - m' == 0.0;
      TotalSign(w', n');
    } else {
      OldSumKept(exp, rnd, row, w, m, l, m', n', alpha, w', t);
    }
  }

  lemma {:induction false} OldSumKept(exp: real -> real, rnd: real -> real, row: seq<Key>, w: seq<real>, m: real, l: real,
                   m': real, n': nat, alpha: real, w': seq<real>, t: nat)
    requires IsExp(exp) && |w| <= n' <= |row| && m' >= m && l == Total(w, |w|) && l >= 1.0
    requires t < |w| && row[t].live && row[t].score == m' && row[t].score <= m && alpha == exp(m - m')
    requires w' == NextWeights(exp, rnd, row, w, alpha, m', n')
    requires forall i :: 0 <= i < n' ==> w'[i] >= 0.0
    ensures Total(w', n') >= 1.0
  {
    var zeros := seq(|w|, _ => 0.0);
    assert m - m' == 0.0;
    ScaleSums(w, alpha, zeros, |w|);
    SamePrefix(Scale(w, alpha), w', zeros, |w|);
    TotalMono(w', |w|, n');
  }

  lemma {:induction false} TotalMono(w: seq<real>, n: nat, n': nat)
    requires n <= n' <= |w| && forall i :: 0 <= i < |w| ==> w[i] >= 0.0
    ensures Total(w, n) <= Total(w, n')
    decreases n'
  {
    if n < n' {
      TotalMono(w, n, n' - 1);
    }
  }

  lemma {:induction false} NextNonNegative(exp: real -> real, rnd: real -> real, row: seq<Key>, w: seq<real>, alpha: real, m': real, n': nat)
    requires IsExp(exp) && IsRounding(rnd) && |w| <= n' <= |row| && alpha >= 0.0
    requires forall t :: 0 <= t < |w| ==> w[t] >= 0.0 && (!row[t].live ==> w[t] == 0.0)
    ensures var w' := NextWeights(exp, rnd, row, w, alpha, m', n');
            forall t :: 0 <= t < n' ==> w'[t] >= 0.0 && (!row[t].live ==> w'[t] == 0.0)
  {
    var b := BlockWeights(exp, rnd, row, |w|, n', m');
    forall t | 0 <= t < n'
      ensures var x := NextWeights(exp, rnd, row, w, alpha, m', n')[t]; x >= 0.0 && (!row[t].live ==> x == 0.0)
    {
      if t < |w| {
        assert Scale(w, alpha)[t] == Scaled(w[t], alpha);
      } else {
        assert b[t - |w|] == rnd(Weight(exp, row[t], m'));
      }
    }
  }

  lemma {:induction false} NextExact(exp: real -> real, rnd: real -> real, row: seq<Key>, w: seq<real>, m: real, m': real, alpha: real, n': nat)
    requires IsExp(exp) && Identity(rnd) && |w| <= n' <= |row| && ExactIs(exp, row, w, m)
    requires SomeLive(row, |w|) ==> alpha == exp(m - m')
    ensures ExactIs(exp, row, NextWeights(exp, rnd, row, w, alpha, m', n'), m')
  {
    var b := BlockWeights(exp, rnd, row, |w|, n', m');
    forall t | 0 <= t < n' ensures NextWeights(exp, rnd, row, w, alpha, m', n')[t] == Weight(exp, row[t], m') {
      if t < |w| {
        assert Scale(w, alpha)[t] == Scaled(w[t], alpha);
        ExpShift(exp, row[t].score, m, m');
      } else {
        assert b[t - |w|] == rnd(Weight(exp, row[t], m'));
      }
    }
  }

  lemma {:induction false} NextL(exp: real -> real, rnd: real -> real, row: seq<Key>, w: seq<real>, l: real, alpha: real, m': real, n': nat,
              l': real)
    requires |w| <= n' <= |row| && l == Total(w, |w|)
    requires var b := BlockWeights(exp, rnd, row, |w|, n', m'); l' == Scaled(l, alpha) + Total(b, |b|)
    ensures l' == Total(NextWeights(exp, rnd, row, w, alpha, m', n'), n')
  {
    NextTotal(exp, rnd, row, w, alpha, m', n');
  }

  // One block of the online softmax on a row's weights.
  lemma {:induction false} NextRow(exp: real -> real, rnd: real -> real, row: seq<Key>, negMax: real, w: seq<real>, m: real, l: real,
                mx: real, n': nat, alpha: real, l': real)
    requires IsExp(exp) && IsRounding(rnd) && |w| <= n' <= |row|
    requires RowIs(row, negMax, w, m, l) && BlockMax(row, negMax, mx, |w|, n')
    requires SeedBelow(row, negMax)
    requires alpha == if l > 0.0 then exp(m - Max(m, mx)) else 0.0
    requires var b := BlockWeights(exp, rnd, row, |w|, n', Max(m, mx)); l' == Scaled(l, alpha) + Total(b, |b|)
    ensures RowIs(row, negMax, NextWeights(exp, rnd, row, w, alpha, Max(m, mx), n'), Max(m, mx), l')
  {
    var m' := Max(m, mx);
    var w' := NextWeights(exp, rnd, row, w, alpha, m', n');
    NextMax(row, negMax, m, mx, |w|, n');
    NextL(exp, rnd, row, w, l, alpha, m', n', l');
    NextNonNegative(exp, rnd, row, w, alpha, m', n');
    if SomeLive(row, n') {
      NextAtLeastOne(exp, rnd, row, negMax, w, m, l, m', n', alpha, w');
    }
  }

  // A row's state, with the exact weights as well when nothing is rounded.
  ghost predicate RowState(exp: real -> real, exact: bool, row: seq<Key>, negMax: real, w: seq<real>, m: real, l: real) {
    RowIs(row, negMax, w, m, l) && (exact ==> ExactIs(exp, row, w, m))
  }

  lemma {:induction false} NextState(exp: real -> real, rnd: real -> real, exact: bool, row: seq<Key>, negMax: real, w: seq<real>,
                  m: real, l: real, mx: real, n': nat, m': real, alpha: real, b: seq<real>,
                  l': real)
    requires IsExp(exp) && IsRounding(rnd) && (exact ==> Identity(rnd)) && |w| <= n' <= |row|
    requires RowState(exp, exact, row, negMax, w, m, l) && BlockMax(row, negMax, mx, |w|, n') && m' == Max(m, mx)
    requires SeedBelow(row, negMax)
    requires alpha == if l > 0.0 then exp(m - m') else 0.0
    requires b == BlockWeights(exp, rnd, row, |w|, n', m')
    requires l' == Scaled(l, alpha) + Total(b, |b|)
    ensures RowState(exp, exact, row, negMax, Scale(w, alpha) + b, m', l')
  {
    NextRow(exp, rnd, row, negMax, w, m, l, mx, n', alpha, l');
    if exact {
      NextExact(exp, rnd, row, w, m, m', alpha, n');
    }
  }

  // ---------- the softmax pass of one row over one block of tpr * cpt columns ----------

  // What row r's threads hold of a block after the first loop: column scores (negMax where masked), column
  // masks, and each thread's own maximum.
  datatype Loaded = Loaded(s: seq<real>, live: seq<bool>, mx: seq<real>)

  ghost predicate LoadedIs(ld: Loaded, row: seq<Key>, negMax: real, kb: nat, tEnd: nat, n: nat, owner: seq<nat>) {
    |ld.s| == |ld.live| == |owner| == n && tEnd <= |row|
    && (forall c :: 0 <= c < n ==> (ld.live[c] <==> kb + c < tEnd && row[kb + c].live))
    && (forall c :: 0 <= c < n ==> ld.s[c] == if ld.live[c] then row[kb + c].score else negMax)
    && (forall c :: 0 <= c < n ==> owner[c] < |ld.mx| && ld.s[c] <= ld.mx[owner[c]])
    && (forall p :: 0 <= p < |ld.mx| ==> MxIs(ld, negMax, p))
  }

  ghost predicate MxIs(ld: Loaded, negMax: real, p: nat)
    requires p < |ld.mx| && |ld.s| == |ld.live|
  {
    ld.mx[p] >= negMax && (ld.mx[p] == negMax || exists c :: 0 <= c < |ld.s| && ld.live[c] && ld.s[c] == ld.mx[p])
  }

  // One thread's columns [c0, c0 + cpt).
  method LoadPart(S: array2<real>, liveAt: nat -> bool, negMax: real, scale: real, r: nat, c0: nat, cpt: nat, kb: nat,
                  tEnd: nat, ghost row: seq<Key>)
    returns (s: seq<real>, live: seq<bool>, mx: real)
    requires r < S.Length0 && c0 + cpt <= S.Length1 && tEnd <= |row|
    requires forall t: nat :: t < tEnd ==> (liveAt(t) <==> row[t].live)
    requires forall c: nat | c < S.Length1 && kb + c < tEnd && row[kb + c].live ::
      S[r, c] * scale == row[kb + c].score
    ensures |s| == |live| == cpt
    ensures forall j: nat | j < cpt :: (live[j] <==> kb + c0 + j < tEnd && row[kb + c0 + j].live)
    ensures forall j: nat | j < cpt :: s[j] == (if live[j] then row[kb + c0 + j].score else negMax) && s[j] <= mx
    ensures mx >= negMax && (mx == negMax || exists j :: 0 <= j < cpt && live[j] && s[j] == mx)
  {
    s, live, mx := [], [], negMax;
    while |s| < cpt
      invariant |s| == |live| <= cpt
      invariant forall j: nat | j < |s| :: (live[j] <==> kb + c0 + j < tEnd && row[kb + c0 + j].live)
      invariant forall j: nat | j < |s| ::
        s[j] == (if live[j] then row[kb + c0 + j].score else negMax) && s[j] <= mx
      invariant mx >= negMax && (mx == negMax || exists j :: 0 <= j < |s| && live[j] && s[j] == mx)
    {
      var c := c0 + |s|;
      var t := kb + c;
      var alive := t < tEnd && liveAt(t);
      var x := if alive then S[r, c] * scale else negMax;
      ghost var was, wasLive := s, live;
      s, live := s + [x], live + [alive];
      if x > mx {
        mx := x;
        assert live[|was|] && s[|was|] == mx;
      } else if mx != negMax {
        ghost var j :| 0 <= j < |was| && wasLive[j] && was[j] == mx;
        assert live[j] && s[j] == mx;
      }
    }
  }

  // The first loop on all of a row's threads.
  method LoadRow(S: array2<real>, liveAt: nat -> bool, negMax: real, scale: real, r: nat, tpr: nat, cpt: nat, kb: nat,
                 tEnd: nat, ghost row: seq<Key>)
    returns (ld: Loaded, ghost owner: seq<nat>)
    requires r < S.Length0 && tpr * cpt <= S.Length1 && tEnd <= |row|
    requires forall t: nat :: t < tEnd ==> (liveAt(t) <==> row[t].live)
    requires forall c: nat | c < S.Length1 && kb + c < tEnd && row[kb + c].live ::
      S[r, c] * scale == row[kb + c].score
    ensures |ld.mx| == tpr && LoadedIs(ld, row, negMax, kb, tEnd, tpr * cpt, owner)
  {
    ld, owner := Loaded([], [], []), [];
    var c0 := 0;
    for part := 0 to tpr
      invariant c0 == part * cpt && |ld.mx| == part && LoadedIs(ld, row, negMax, kb, tEnd, c0, owner)
    {
      MulMono(part + 1, tpr, cpt);
      assert (part + 1) * cpt == c0 + cpt;
      var s, live, mx := LoadPart(S, liveAt, negMax, scale, r, c0, cpt, kb, tEnd, row);
      AppendPart(ld, owner, row, negMax, kb, tEnd, s, live, mx, part);
      ld, owner := Loaded(ld.s + s, ld.live + live, ld.mx + [mx]), owner + seq(cpt, _ => part);
      c0 := c0 + cpt;
    }
  }

  lemma {:induction false} AppendPart(ld: Loaded, owner: seq<nat>, row: seq<Key>, negMax: real, kb: nat, tEnd: nat,
                   s: seq<real>, live: seq<bool>, mx: real, part: nat)
    requires |ld.mx| == part && LoadedIs(ld, row, negMax, kb, tEnd, |ld.s|, owner) && |s| == |live|
    requires forall j: nat | j < |s| :: (live[j] <==> kb + |ld.s| + j < tEnd && row[kb + |ld.s| + j].live)
    requires forall j: nat | j < |s| ::
      s[j] == (if live[j] then row[kb + |ld.s| + j].score else negMax) && s[j] <= mx
    requires mx >= negMax && (mx == negMax || exists j :: 0 <= j < |s| && live[j] && s[j] == mx)
    ensures LoadedIs(Loaded(ld.s + s, ld.live + live, ld.mx + [mx]), row, negMax, kb, tEnd, |ld.s| + |s|,
                     owner + seq(|s|, _ => part))
  {
    var ld' := Loaded(ld.s + s, ld.live + live, ld.mx + [mx]);
    forall p | 0 <= p < |ld'.mx| ensures MxIs(ld', negMax, p) {
      if p < part {
        assert MxIs(ld, negMax, p);
        if ld.mx[p] != negMax {
          var c :| 0 <= c < |ld.s| && ld.live[c] && ld.s[c] == ld.mx[p];
          assert ld'.live[c] && ld'.s[c] == ld'.mx[p];
        }
      } else if mx != negMax {
        var j :| 0 <= j < |s| && live[j] && s[j] == mx;
        assert ld'.live[|ld.s| + j] && ld'.s[|ld.s| + j] == mx;
      }
    }
  }

  // The row maximum the butterfly leaves in every thread is the block's.
  lemma {:induction false} FoldIsBlockMax(ld: Loaded, owner: seq<nat>, row: seq<Key>, negMax: real, kb: nat, tEnd: nat, n: nat, n': nat)
    requires ld.mx != [] && LoadedIs(ld, row, negMax, kb, tEnd, n, owner)
    requires kb <= n' <= tEnd && n' <= kb + n && (n' == tEnd || n' == kb + n)
    ensures BlockMax(row, negMax, Fold(Max, ld.mx), kb, n')
  {
    var mx := Fold(Max, ld.mx);
    FoldMaxIsMaximum(ld.mx);
    var p :| 0 <= p < |ld.mx| && ld.mx[p] == mx;
    assert MxIs(ld, negMax, p);
    forall t | kb <= t < n' && row[t].live ensures row[t].score <= mx {
      assert ld.live[t - kb] && ld.s[t - kb] <= ld.mx[owner[t - kb]];
    }
    if mx != negMax {
      var c :| 0 <= c < |ld.s| && ld.live[c] && ld.s[c] == ld.mx[p];
      assert row[kb + c].live && row[kb + c].score == mx;
    }
  }

  // What the row's columns of the probability tile hold: the block's weights, then zeros.
  ghost function Padded(b: seq<real>, n: nat): (p: seq<real>)
    requires |b| <= n
    ensures |p| == n && forall c :: 0 <= c < n ==> p[c] == if c < |b| then b[c] else 0.0
  {
    b + seq(n - |b|, _ => 0.0)
  }

  lemma {:induction false} PaddedSums(b: seq<real>, n: nat)
    requires |b| <= n
    ensures Total(Padded(b, n), n) == Total(b, |b|)
    decreases n
  {
    if n == |b| {
      assert Padded(b, n) == b;
    } else {
      PaddedSums(b, n - 1);
      SamePrefix(Padded(b, n - 1), Padded(b, n), seq(n, _ => 0.0), n - 1);
    }
  }

  // The second loop on one thread's columns: store each weight as P's type does, and sum what was stored.
  method StorePart(P: array2<real>, exp: real -> real, rnd: real -> real, ld: Loaded, m_new: real, r: nat, c0: nat,
                   cpt: nat, ghost want: seq<real>)
    returns (sum: real)
    requires r < P.Length0 && |want| <= P.Length1 && c0 + cpt <= |want| == |ld.s| == |ld.live|
    requires forall c :: c0 <= c < c0 + cpt ==> rnd(if ld.live[c] then exp(ld.s[c] - m_new) else 0.0) == want[c]
    modifies P
    ensures Total(want, c0) + sum == Total(want, c0 + cpt)
    ensures forall c: nat | c0 <= c < c0 + cpt :: P[r, c] == want[c]
    ensures forall i: nat, c: nat | i < P.Length0 && c < P.Length1 && (i != r || !(c0 <= c < c0 + cpt)) ::
      P[i, c] == old(P[i, c])
  {
    sum := 0.0;
    for j := 0 to cpt
      invariant Total(want, c0) + sum == Total(want, c0 + j)
      invariant forall c: nat | c0 <= c < c0 + j :: P[r, c] == want[c]
      invariant forall i: nat, c: nat | i < P.Length0 && c < P.Length1 && (i != r || !(c0 <= c < c0 + j)) ::
        P[i, c] == old(P[i, c])
    {
      var c := c0 + j;
      var p := rnd(if ld.live[c] then exp(ld.s[c] - m_new) else 0.0);
      P[r, c] := p;
      sum := sum + p;
    }
  }

  method StoreRow(P: array2<real>, exp: real -> real, rnd: real -> real, ld: Loaded, m_new: real, r: nat, tpr: nat,
                  cpt: nat, ghost want: seq<real>)
    returns (sums: seq<real>)
    requires r < P.Length0 && tpr * cpt <= P.Length1 && |want| == |ld.s| == |ld.live| == tpr * cpt
    requires forall c :: 0 <= c < |want| ==> rnd(if ld.live[c] then exp(ld.s[c] - m_new) else 0.0) == want[c]
    modifies P
    ensures |sums| == tpr && Sum(sums) == Total(want, |want|)
    ensures forall c: nat | c < |want| :: P[r, c] == want[c]
    ensures forall i: nat, c: nat | i < P.Length0 && c < P.Length1 && i != r :: P[i, c] == old(P[i, c])
  {
    sums := [];
    var c0 := 0;
    for part := 0 to tpr
      invariant c0 == part * cpt && |sums| == part && c0 <= |want|
      invariant Sum(sums) == Total(want, c0)
      invariant forall c: nat | c < c0 :: P[r, c] == want[c]
      invariant forall i: nat, c: nat | i < P.Length0 && c < P.Length1 && i != r :: P[i, c] == old(P[i, c])
    {
      MulMono(part + 1, tpr, cpt);
      assert (part + 1) * cpt == c0 + cpt;
      var sum := StorePart(P, exp, rnd, ld, m_new, r, c0, cpt, want);
      assert (sums + [sum])[..part] == sums;
      sums := sums + [sum];
      c0 := c0 + cpt;
    }
  }

  // The row maximum, by butterfly over the row's threads.
  method RowMax(S: array2<real>, liveAt: nat -> bool, negMax: real, scale: real, r: nat, tpr: nat, cpt: nat, kb: nat,
                tEnd: nat, ghost row: seq<Key>, ghost n': nat)
    returns (ld: Loaded, ghost owner: seq<nat>, mx: real)
    requires PowerOfTwo(tpr) && r < S.Length0 && tpr * cpt <= S.Length1 && tEnd <= |row|
    requires forall t: nat :: t < tEnd ==> (liveAt(t) <==> row[t].live)
    requires forall c: nat | c < S.Length1 && kb + c < tEnd && row[kb + c].live :: S[r, c] * scale == row[kb + c].score
    requires kb <= n' <= tEnd && n' <= kb + tpr * cpt && (n' == tEnd || n' == kb + tpr * cpt)
    ensures LoadedIs(ld, row, negMax, kb, tEnd, tpr * cpt, owner) && BlockMax(row, negMax, mx, kb, n')
  {
    ld, owner := LoadRow(S, liveAt, negMax, scale, r, tpr, cpt, kb, tEnd, row);
    AddMaxAC();
    var maxima := Reduce(Max, ld.mx);
    mx := maxima[0];
    FoldIsBlockMax(ld, owner, row, negMax, kb, tEnd, tpr * cpt, n');
  }

  lemma {:induction false} WantedWeights(exp: real -> real, rnd: real -> real, ld: Loaded, owner: seq<nat>, row: seq<Key>, negMax: real,
                      kb: nat, tEnd: nat, n: nat, n': nat, m_new: real)
    requires IsRounding(rnd) && LoadedIs(ld, row, negMax, kb, tEnd, n, owner)
    requires kb <= n' <= tEnd && n' <= kb + n && (n' == tEnd || n' == kb + n)
    ensures var want := Padded(BlockWeights(exp, rnd, row, kb, n', m_new), n);
            forall c :: 0 <= c < n ==> rnd(if ld.live[c] then exp(ld.s[c] - m_new) else 0.0) == want[c]
  {
    var b := BlockWeights(exp, rnd, row, kb, n', m_new);
    forall c | 0 <= c < n ensures rnd(if ld.live[c] then exp(ld.s[c] - m_new) else 0.0) == Padded(b, n)[c] {
      if c < |b| {
        assert b[c] == rnd(Weight(exp, row[kb + c], m_new));
      }
    }
  }

  // The stored weights and their sum, by butterfly over the row's threads.
  method RowStore(P: array2<real>, exp: real -> real, rnd: real -> real, ld: Loaded, m_new: real, r: nat, tpr: nat,
                  cpt: nat, ghost b: seq<real>)
    returns (sum: real)
    requires PowerOfTwo(tpr) && r < P.Length0 && tpr * cpt <= P.Length1 && |ld.s| == |ld.live| == tpr * cpt
    requires |b| <= tpr * cpt
    requires forall c :: 0 <= c < tpr * cpt ==>
      rnd(if ld.live[c] then exp(ld.s[c] - m_new) else 0.0) == Padded(b, tpr * cpt)[c]
    modifies P
    ensures sum == Total(b, |b|)
    ensures forall c: nat | c < tpr * cpt :: P[r, c] == Padded(b, tpr * cpt)[c]
    ensures forall i: nat, c: nat | i < P.Length0 && c < P.Length1 && i != r :: P[i, c] == old(P[i, c])
  {
    var sums := StoreRow(P, exp, rnd, ld, m_new, r, tpr, cpt, Padded(b, tpr * cpt));
    AddMaxAC();
    var folded := Reduce(Add, sums);
    sum := folded[0];
    FoldAddIsSum(sums);
    PaddedSums(b, tpr * cpt);
  }

  // The pass: maximum by butterfly, rescale factor, stored weights, sum by butterfly. P may be S itself.
  method SoftmaxRow(S: array2<real>, P: array2<real>, liveAt: nat -> bool, exp: real -> real, rnd: real -> real,
                    negMax: real, scale: real, r: nat, tpr: nat, cpt: nat, bk: nat, kb: nat, tEnd: nat,
                    m_old: real, l_old: real, ghost row: seq<Key>, ghost n': nat)
    returns (m_new: real, alpha: real, sum: real, ghost mx: real)
    requires IsExp(exp) && IsRounding(rnd) && PowerOfTwo(tpr) && r < S.Length0 && r < P.Length0
    requires bk == tpr * cpt && bk <= S.Length1 && bk <= P.Length1 && tEnd <= |row|
    requires forall t: nat :: t < tEnd ==> (liveAt(t) <==> row[t].live)
    requires forall c: nat | c < S.Length1 && kb + c < tEnd && row[kb + c].live :: S[r, c] * scale == row[kb + c].score
    requires kb <= n' <= tEnd && n' <= kb + bk && (n' == tEnd || n' == kb + bk)
    modifies P
    ensures BlockMax(row, negMax, mx, kb, n') && m_new == Max(m_old, mx)
    ensures alpha == if l_old > 0.0 then exp(m_old - m_new) else 0.0
    ensures var b := BlockWeights(exp, rnd, row, kb, n', m_new);
            sum == Total(b, |b|) && forall c: nat | c < bk :: P[r, c] == Padded(b, bk)[c]
    ensures forall i: nat, c: nat | i < P.Length0 && c < P.Length1 && i != r :: P[i, c] == old(P[i, c])
  {
    var ld, owner, mx0 := RowMax(S, liveAt, negMax, scale, r, tpr, cpt, kb, tEnd, row, n');
    mx := mx0;
    m_new := Max(m_old, mx0);
    alpha := if l_old > 0.0 then exp(m_old - m_new) else 0.0;
    WantedWeights(exp, rnd, ld, owner, row, negMax, kb, tEnd, bk, n', m_new);
    sum := RowStore(P, exp, rnd, ld, m_new, r, tpr, cpt, BlockWeights(exp, rnd, row, kb, n', m_new));
  }

  // ---------- the block loop ----------

  // One threadgroup's inputs: nq live query rows from position q0 (the tile has bq rows), and the head's keys
  // and values.
  datatype Head = Head(mode: Mode, scale: real, q0: nat, dim: nat, q: seq<seq<real>>, k: seq<seq<real>>, v: seq<seq<real>>)
  {
    ghost predicate Valid() {
      AllDim(q, dim) && AllDim(k, dim) && AllDim(v, dim) && |k| == |v| && 0 < |q|
    }

    // Row r of the tile; rows past the query are all masked.
    ghost function Row(r: nat): (row: seq<Key>)
      requires Valid()
      ensures |row| == |k|
      ensures forall t :: 0 <= t < |k| ==> (row[t].live <==> r < |q| && Live(mode, |k|, q0 + r, t))
      ensures r < |q| ==> forall t :: 0 <= t < |k| ==> row[t].score == Dot(q[r], k[t], dim) * scale
    {
      seq(|k|, t requires 0 <= t < |k| =>
        if r < |q| then Key(Dot(q[r], k[t], dim) * scale, Live(mode, |k|, q0 + r, t)) else Key(0.0, false))
    }
  }

  // The running state of all bq rows after the first n keys.
  ghost predicate StateHolds(exp: real -> real, exact: bool, rows: seq<seq<Key>>, negMax: real, w: seq<seq<real>>,
                             m: seq<real>, l: seq<real>, n: nat) {
    |rows| == |w| == |m| == |l|
    && forall r :: 0 <= r < |rows| ==> |w[r]| == n && RowState(exp, exact, rows[r], negMax, w[r], m[r], l[r])
  }

  // x is the blend of a column by the weights so far.
  ghost predicate OutIs(w: seq<real>, col: seq<real>, x: real) {
    |w| <= |col| && x == Blend(w, col, |w|)
  }

  // S = Q.K^T for one block; an exact primitive, bounds-checked at the live prefix.
  method QkTile(g: Head, S: array2<real>, kb: nat)
    requires g.Valid() && |g.q| <= S.Length0
    modifies S
    ensures forall r: nat, c: nat | r < |g.q| && c < S.Length1 && kb + c < |g.k| :: S[r, c] == Dot(g.q[r], g.k[kb + c], g.dim)
  {
    for r := 0 to |g.q|
      invariant forall i: nat, c: nat | i < r && c < S.Length1 && kb + c < |g.k| ::
        S[i, c] == Dot(g.q[i], g.k[kb + c], g.dim)
    {
      for c := 0 to S.Length1
        invariant forall i: nat, j: nat | i < r && j < S.Length1 && kb + j < |g.k| ::
          S[i, j] == Dot(g.q[i], g.k[kb + j], g.dim)
        invariant forall j: nat | j < c && kb + j < |g.k| :: S[r, j] == Dot(g.q[r], g.k[kb + j], g.dim)
      {
        if kb + c < |g.k| {
          var x := DotOf(g.q[r], g.k[kb + c]);
          S[r, c] := x;
        } else {
          S[r, c] := 0.0;
        }
      }
    }
  }

  method DotOf(q: seq<real>, k: seq<real>) returns (x: real)
    requires |q| == |k|
    ensures x == Dot(q, k, |q|)
  {
    x := 0.0;
    for d := 0 to |q|
      invariant x == Dot(q, k, d)
    {
      x := x + q[d] * k[d];
    }
  }

  // Row r, coordinate d of P.V for one block; also an exact primitive.
  method PvElement(P: array2<real>, v: seq<seq<real>>, r: nat, d: nat, kb: nat, bk: nat, ghost b: seq<real>, ghost col: seq<real>)
    returns (x: real)
    requires r < P.Length0 && bk <= P.Length1 && |b| <= bk && kb + |b| <= |v| == |col|
    requires forall t :: 0 <= t < |v| ==> d < |v[t]| && v[t][d] == col[t]
    requires forall c: nat | c < bk :: P[r, c] == Padded(b, bk)[c]
    ensures x == Blend(b, col[kb..], |b|)
  {
    x := 0.0;
    for c := 0 to bk
      invariant x == if c < |b| then Blend(b, col[kb..], c) else Blend(b, col[kb..], |b|)
    {
      assert P[r, c] == Padded(b, bk)[c];
      if kb + c < |v| {
        x := x + P[r, c] * v[kb + c][d];
      }
    }
  }

  // cols[d] is coordinate d of every value vector.
  ghost predicate ColsAre(v: seq<seq<real>>, cols: seq<seq<real>>) {
    (forall d :: 0 <= d < |cols| ==> |cols[d]| == |v|)
    && forall t, d :: 0 <= t < |v| && 0 <= d < |cols| ==> d < |v[t]| && v[t][d] == cols[d][t]
  }

  // Rescale a row's outputs by alpha and add P.V: the outputs blend the next weights w'.
  method UpdateRow(v: seq<seq<real>>, P: array2<real>, o: array2<real>, r: nat, kb: nat, bk: nat, alpha: real,
                   ghost cols: seq<seq<real>>, ghost w: seq<real>, ghost b: seq<real>)
    requires ColsAre(v, cols) && r < P.Length0 && bk <= P.Length1 && r < o.Length0 && o.Length1 == |cols| && P != o
    requires |w| == kb && kb + |b| <= |v| && |b| <= bk
    requires forall c: nat | c < bk :: P[r, c] == Padded(b, bk)[c]
    requires forall d: nat | d < |cols| :: OutIs(w, cols[d], o[r, d])
    modifies o
    ensures forall d: nat | d < |cols| :: OutIs(Scale(w, alpha) + b, cols[d], o[r, d])
    ensures forall i: nat, d: nat | i != r && i < o.Length0 && d < |cols| :: o[i, d] == old(o[i, d])
  {
    for d := 0 to o.Length1
      invariant forall e: nat | e < d :: OutIs(Scale(w, alpha) + b, cols[e], o[r, e])
      invariant forall e: nat | d <= e < |cols| :: o[r, e] == old(o[r, e])
      invariant forall i: nat, e: nat | i != r && i < o.Length0 && e < |cols| :: o[i, e] == old(o[i, e])
    {
      var pv := PvElement(P, v, r, d, kb, bk, b, cols[d]);
      NextOut(w, b, cols[d], alpha, o[r, d], pv);
      o[r, d] := Scaled(o[r, d], alpha) + pv;
    }
  }

  lemma {:induction false} NextOut(w: seq<real>, b: seq<real>, col: seq<real>, alpha: real, x: real, pv: real)
    requires |w| + |b| <= |col| && OutIs(w, col, x) && pv == Blend(b, col[|w|..], |b|)
    ensures OutIs(Scale(w, alpha) + b, col, Scaled(x, alpha) + pv)
  {
    ScaleSums(w, alpha, col, |w|);
    ConcatSums(Scale(w, alpha), b, col, |b|);
  }

  // Row r of the block's columns of P holds b.
  ghost predicate RowHolds(P: array2<real>, r: nat, b: seq<real>, bk: nat)
    reads P
  {
    r < P.Length0 && |b| <= bk <= P.Length1 && forall c: nat | c < bk :: P[r, c] == Padded(b, bk)[c]
  }

  // Row r of S holds the scores a row needs.
  ghost predicate ScoresHold(S: array2<real>, r: nat, row: seq<Key>, scale: real, kb: nat, tEnd: nat)
    reads S
  {
    r < S.Length0 && tEnd <= |row|
    && forall c: nat | c < S.Length1 && kb + c < tEnd && row[kb + c].live :: S[r, c] * scale == row[kb + c].score
  }

  // SoftmaxRow, with what it leaves of the other rows.
  method RowWeights(S: array2<real>, P: array2<real>, liveAt: nat -> bool, exp: real -> real, rnd: real -> real,
                    negMax: real, scale: real, r: nat, tpr: nat, cpt: nat, bk: nat, kb: nat, tEnd: nat,
                    m_old: real, l_old: real, ghost row: seq<Key>, ghost n': nat)
    returns (m_new: real, alpha: real, sum: real, ghost mx: real, ghost b: seq<real>)
    requires IsExp(exp) && IsRounding(rnd) && PowerOfTwo(tpr) && r < P.Length0
    requires bk == tpr * cpt && S.Length1 == P.Length1 == bk && ScoresHold(S, r, row, scale, kb, tEnd)
    requires forall t: nat :: t < tEnd ==> (liveAt(t) <==> row[t].live)
    requires kb <= n' <= tEnd && n' <= kb + bk && (n' == tEnd || n' == kb + bk)
    modifies P
    ensures BlockMax(row, negMax, mx, kb, n') && m_new == Max(m_old, mx)
    ensures alpha == if l_old > 0.0 then exp(m_old - m_new) else 0.0
    ensures b == BlockWeights(exp, rnd, row, kb, n', m_new) && sum == Total(b, |b|) && RowHolds(P, r, b, bk)
    ensures forall i: nat, s | i != r && old(ScoresHold(S, i, s, scale, kb, tEnd)) :: ScoresHold(S, i, s, scale, kb, tEnd)
    ensures forall i: nat, s | i != r && old(RowHolds(P, i, s, bk)) :: RowHolds(P, i, s, bk)
  {
    m_new, alpha, sum, mx :=
      SoftmaxRow(S, P, liveAt, exp, rnd, negMax, scale, r, tpr, cpt, bk, kb, tEnd, m_old, l_old, row, n');
    b := BlockWeights(exp, rnd, row, kb, n', m_new);
  }

  // One row's pass with the state it leaves: b is what its columns of P hold.
  method RowStep(S: array2<real>, P: array2<real>, liveAt: nat -> bool, exp: real -> real, rnd: real -> real,
                 ghost exact: bool, negMax: real, scale: real, r: nat, tpr: nat, cpt: nat, bk: nat, kb: nat, tEnd: nat,
                 m_old: real, l_old: real, ghost row: seq<Key>, ghost w: seq<real>, ghost n': nat)
    returns (m_new: real, l_new: real, alpha: real, ghost b: seq<real>)
    requires IsExp(exp) && IsRounding(rnd) && (exact ==> Identity(rnd))
    requires PowerOfTwo(tpr) && r < P.Length0 && bk == tpr * cpt && S.Length1 == P.Length1 == bk
    requires ScoresHold(S, r, row, scale, kb, tEnd)
    requires forall t: nat :: t < tEnd ==> (liveAt(t) <==> row[t].live)
    requires |w| == kb <= n' <= tEnd && n' <= kb + bk && (n' == tEnd || n' == kb + bk)
    requires RowState(exp, exact, row, negMax, w, m_old, l_old)
    requires SeedBelow(row, negMax)
    modifies P
    ensures |b| == n' - kb && RowHolds(P, r, b, bk)
    ensures RowState(exp, exact, row, negMax, Scale(w, alpha) + b, m_new, l_new)
    ensures forall i: nat, s | i != r && old(ScoresHold(S, i, s, scale, kb, tEnd)) :: ScoresHold(S, i, s, scale, kb, tEnd)
    ensures forall i: nat, s | i != r && old(RowHolds(P, i, s, bk)) :: RowHolds(P, i, s, bk)
  {
    var sum;
    ghost var mx;
    m_new, alpha, sum, mx, b :=
      RowWeights(S, P, liveAt, exp, rnd, negMax, scale, r, tpr, cpt, bk, kb, tEnd, m_old, l_old, row, n');
    l_new := Scaled(l_old, alpha) + sum;
    NextState(exp, rnd, exact, row, negMax, w, m_old, l_old, mx, n', m_new, alpha, b, l_new);
  }

  // The kernel's mask on row r is the row's own, over the walked range.
  ghost predicate MaskAgrees(g: Head, r: nat, row: seq<Key>, tEnd: nat)
    requires 0 < |g.q|
  {
    |row| == |g.k| && tEnd <= |row|
    && forall t: nat :: t < tEnd ==> (KernelLive(g.mode, |g.k|, g.q0, |g.q|, r, t) <==> row[t].live)
  }

  // A row after its pass: `width` more weights, and the state that goes with them.
  ghost predicate Passed(exp: real -> real, exact: bool, row: seq<Key>, negMax: real, w: seq<real>, a: real, b: seq<real>,
                         m: real, l: real, width: int) {
    |b| == width && RowState(exp, exact, row, negMax, Scale(w, a) + b, m, l)
  }

  // All rows' passes, in any order.
  method SoftmaxPass(g: Head, S: array2<real>, P: array2<real>, exp: real -> real, rnd: real -> real, ghost exact: bool,
                     negMax: real, bq: nat, tpr: nat, cpt: nat, bk: nat, kb: nat, tEnd: nat, m: seq<real>, l: seq<real>,
                     ghost rows: seq<seq<Key>>, ghost w: seq<seq<real>>, ghost n': nat)
    returns (m': seq<real>, l': seq<real>, a: seq<real>, ghost b: seq<seq<real>>)
    requires 0 < |g.q| && tEnd == TEnd(g.mode, |g.k|, g.q0, |g.q|) <= |g.k| && |rows| == bq
    requires forall r: nat :: r < bq ==> MaskAgrees(g, r, rows[r], tEnd)
    requires IsExp(exp) && IsRounding(rnd) && (exact ==> Identity(rnd)) && PowerOfTwo(tpr) && bk == tpr * cpt
    requires S.Length0 == P.Length0 == bq && S.Length1 == P.Length1 == bk
    requires forall r: nat | r < bq :: ScoresHold(S, r, rows[r], g.scale, kb, tEnd)
    requires kb <= n' <= tEnd && n' <= kb + bk && (n' == tEnd || n' == kb + bk)
    requires StateHolds(exp, exact, rows, negMax, w, m, l, kb)
    requires forall r :: 0 <= r < bq ==> SeedBelow(rows[r], negMax)
    modifies P
    ensures |m'| == |l'| == |a| == |b| == bq
    ensures forall r: nat | r < bq :: RowHolds(P, r, b[r], bk)
    ensures forall r: nat | r < bq :: Passed(exp, exact, rows[r], negMax, w[r], a[r], b[r], m'[r], l'[r], n' - kb)
  {
    m', l', a := m, l, seq(bq, _ => 0.0);
    b := seq(bq, _ => []);
    var done := seq(bq, _ => 0);
    while exists r :: 0 <= r < bq && done[r] < 1
      invariant |m'| == |l'| == |a| == |b| == |done| == bq
      invariant forall r: nat | r < bq && done[r] < 1 :: ScoresHold(S, r, rows[r], g.scale, kb, tEnd)
      invariant forall r: nat | r < bq && done[r] >= 1 :: RowHolds(P, r, b[r], bk)
      invariant forall r: nat | r < bq && done[r] >= 1 :: Passed(exp, exact, rows[r], negMax, w[r], a[r], b[r], m'[r], l'[r], n' - kb)
      decreases Work(done, 1)
    {
      var r: nat :| r < bq && done[r] < 1;
      assert ScoresHold(S, r, rows[r], g.scale, kb, tEnd);
      var m_new, l_new, alpha, b_new :=
        StepRow(g, S, P, exp, rnd, exact, negMax, r, tpr, cpt, bk, kb, tEnd, m[r], l[r], rows[r], w[r], n');
      m', l', a, b := m'[r := m_new], l'[r := l_new], a[r := alpha], b[r := b_new];
      WorkDrops(done, r, 1, 1);
      done := done[r := 1];
    }
  }

  // RowStep with the kernel's own column mask.
  method StepRow(g: Head, S: array2<real>, P: array2<real>, exp: real -> real, rnd: real -> real, ghost exact: bool,
                 negMax: real, r: nat, tpr: nat, cpt: nat, bk: nat, kb: nat, tEnd: nat, m_old: real, l_old: real,
                 ghost row: seq<Key>, ghost w: seq<real>, ghost n': nat)
    returns (m_new: real, l_new: real, alpha: real, ghost b: seq<real>)
    requires 0 < |g.q| && tEnd == TEnd(g.mode, |g.k|, g.q0, |g.q|) <= |g.k| == |row|
    requires MaskAgrees(g, r, row, tEnd)
    requires IsExp(exp) && IsRounding(rnd) && (exact ==> Identity(rnd)) && PowerOfTwo(tpr) && bk == tpr * cpt
    requires r < P.Length0 && S.Length1 == P.Length1 == bk && ScoresHold(S, r, row, g.scale, kb, tEnd)
    requires |w| == kb <= n' <= tEnd && n' <= kb + bk && (n' == tEnd || n' == kb + bk)
    requires RowState(exp, exact, row, negMax, w, m_old, l_old)
    requires SeedBelow(row, negMax)
    modifies P
    ensures RowHolds(P, r, b, bk) && Passed(exp, exact, row, negMax, w, alpha, b, m_new, l_new, n' - kb)
    ensures forall i: nat, s | i != r && old(ScoresHold(S, i, s, g.scale, kb, tEnd)) :: ScoresHold(S, i, s, g.scale, kb, tEnd)
    ensures forall i: nat, s | i != r && old(RowHolds(P, i, s, bk)) :: RowHolds(P, i, s, bk)
  {
    var mode, tkv, q0, nq := g.mode, |g.k|, g.q0, |g.q|;
    var liveAt := (t: nat) => KernelLive(mode, tkv, q0, nq, r, t);
    m_new, l_new, alpha, b :=
      RowStep(S, P, liveAt, exp, rnd, exact, negMax, g.scale, r, tpr, cpt, bk, kb, tEnd, m_old, l_old, row, w, n');
  }

  // The tile's outputs blend the columns by the rows' weights so far.
  ghost predicate OutsHold(o: array2<real>, w: seq<seq<real>>, cols: seq<seq<real>>)
    requires o.Length0 == |w| && o.Length1 == |cols|
    reads o
  {
    forall r: nat, d: nat | r < |w| && d < |cols| :: OutIs(w[r], cols[d], o[r, d])
  }

  // Rescale and P.V for every row.
  method UpdateRows(v: seq<seq<real>>, P: array2<real>, o: array2<real>, kb: nat, bk: nat, a: seq<real>,
                    ghost cols: seq<seq<real>>, ghost w: seq<seq<real>>, ghost b: seq<seq<real>>)
    requires ColsAre(v, cols) && o.Length0 == |w| == |a| == |b| && o.Length1 == |cols| && P != o
    requires forall r: nat | r < |w| :: |w[r]| == kb && kb + |b[r]| <= |v| && RowHolds(P, r, b[r], bk)
    requires OutsHold(o, w, cols)
    modifies o
    ensures forall r: nat, d: nat | r < |w| && d < |cols| :: OutIs(Scale(w[r], a[r]) + b[r], cols[d], o[r, d])
  {
    for r := 0 to |a|
      invariant forall i: nat, d: nat | i < r && d < |cols| :: OutIs(Scale(w[i], a[i]) + b[i], cols[d], o[i, d])
      invariant forall i: nat, d: nat | r <= i < |w| && d < |cols| :: OutIs(w[i], cols[d], o[i, d])
    {
      assert RowHolds(P, r, b[r], bk);
      UpdateRow(v, P, o, r, kb, bk, a[r], cols, w[r], b[r]);
    }
  }

  // What the threadgroup's rows see, and the numbers the kernel is instantiated with.
  ghost predicate Sees(g: Head, rows: seq<seq<Key>>, cols: seq<seq<real>>) {
    g.Valid() && ColsAre(g.v, cols) && |cols| == g.dim && |g.q| <= |rows|
    && forall r: nat | r < |rows| :: rows[r] == g.Row(r)
  }

  lemma {:induction false} RowMask(g: Head, r: nat)
    requires g.Valid()
    ensures MaskAgrees(g, r, g.Row(r), TEnd(g.mode, |g.k|, g.q0, |g.q|))
  {
    var tEnd := TEnd(g.mode, |g.k|, g.q0, |g.q|);
    assert tEnd <= |g.k|;
  }

  method BlockScores(g: Head, S: array2<real>, kb: nat, tEnd: nat, ghost rows: seq<seq<Key>>, ghost cols: seq<seq<real>>)
    requires Sees(g, rows, cols) && tEnd == TEnd(g.mode, |g.k|, g.q0, |g.q|) && S.Length0 == |rows|
    modifies S
    ensures 0 < |g.q| && tEnd <= |g.k|
    ensures forall r: nat | r < |rows| :: ScoresHold(S, r, rows[r], g.scale, kb, tEnd) && MaskAgrees(g, r, rows[r], tEnd)
  {
    QkTile(g, S, kb);
    forall r: nat | r < |rows| ensures ScoresHold(S, r, rows[r], g.scale, kb, tEnd) && MaskAgrees(g, r, rows[r], tEnd) {
      RowMask(g, r);
    }
  }

  // One block: scores, softmax pass (P may be S, overwritten in place), rescale and P.V.
  method RunBlock(g: Head, S: array2<real>, P: array2<real>, o: array2<real>, exp: real -> real, rnd: real -> real,
                  ghost exact: bool, negMax: real, tpr: nat, cpt: nat, bk: nat, kb: nat, tEnd: nat,
                  m: seq<real>, l: seq<real>, ghost rows: seq<seq<Key>>, ghost cols: seq<seq<real>>, ghost w: seq<seq<real>>)
    returns (m': seq<real>, l': seq<real>, ghost w': seq<seq<real>>)
    requires Sees(g, rows, cols) && tEnd == TEnd(g.mode, |g.k|, g.q0, |g.q|) && kb < tEnd
    requires IsExp(exp) && IsRounding(rnd) && (exact ==> Identity(rnd)) && PowerOfTwo(tpr) && bk == tpr * cpt
    requires S.Length0 == P.Length0 == o.Length0 == |rows| && S.Length1 == P.Length1 == bk && o.Length1 == |cols|
    requires S != o && P != o
    requires StateHolds(exp, exact, rows, negMax, w, m, l, kb) && OutsHold(o, w, cols)
    requires forall r :: 0 <= r < |rows| ==> SeedBelow(rows[r], negMax)
    modifies S, P, o
    ensures StateHolds(exp, exact, rows, negMax, w', m', l', if kb + bk < tEnd then kb + bk else tEnd)
    ensures OutsHold(o, w', cols)
  {
    ghost var n' := if kb + bk < tEnd then kb + bk else tEnd;
    BlockScores(g, S, kb, tEnd, rows, cols);
    var a;
    ghost var b;
    m', l', a, b := SoftmaxPass(g, S, P, exp, rnd, exact, negMax, |m|, tpr, cpt, bk, kb, tEnd, m, l, rows, w, n');
    UpdateRows(g.v, P, o, kb, bk, a, cols, w, b);
    w' := seq(|w|, r requires 0 <= r < |w| => Scale(w[r], a[r]) + b[r]);
  }

  // ---------- the whole threadgroup ----------

  // Nonnegative coefficients on live keys only, summing to 1.
  ghost predicate Convex(row: seq<Key>, coef: seq<real>) {
    |coef| <= |row| && Total(coef, |coef|) == 1.0
    && forall t :: 0 <= t < |coef| ==> coef[t] >= 0.0 && (!row[t].live ==> coef[t] == 0.0)
  }

  lemma {:induction false} StartState(exp: real -> real, exact: bool, row: seq<Key>, negMax: real, n: nat)
    requires n <= |row| && forall t :: 0 <= t < n ==> !row[t].live
    ensures RowState(exp, exact, row, negMax, seq(n, _ => 0.0), negMax, 0.0)
  {
    TotalSign(seq(n, _ => 0.0), n);
  }

  lemma {:induction false} ZeroBlend(w: seq<real>, v: seq<real>, n: nat)
    requires n <= |w| && n <= |v| && forall i :: 0 <= i < |w| ==> w[i] == 0.0
    ensures Blend(w, v, n) == 0.0
  {
    if n > 0 {
      ZeroBlend(w, v, n - 1);
    }
  }

  // Before the first block: no live key lies below the walked range.
  lemma {:induction false} StartRow(g: Head, r: nat, n: nat)
    requires g.Valid()
    requires n == var lo, e := TLo(g.mode, g.q0), TEnd(g.mode, |g.k|, g.q0, |g.q|); if lo < e then lo else e
    ensures n <= |g.k| && forall t :: 0 <= t < n ==> !g.Row(r)[t].live
  {
    forall t | 0 <= t < n ensures !g.Row(r)[t].live {
      if r < |g.q| {
        OutsideIsDead(g.mode, |g.k|, g.q0, |g.q|, g.q0 + r, t);
      }
    }
  }

  // After the last: none lies above it.
  lemma {:induction false} EndRow(g: Head, r: nat, e: nat)
    requires g.Valid() && e == TEnd(g.mode, |g.k|, g.q0, |g.q|)
    ensures e <= |g.k| && forall t :: e <= t < |g.k| ==> !g.Row(r)[t].live
  {
    forall t | e <= t < |g.k| ensures !g.Row(r)[t].live {
      if r < |g.q| {
        OutsideIsDead(g.mode, |g.k|, g.q0, |g.q|, g.q0 + r, t);
      }
    }
  }

  // The key walk from t_lo to t_end.
  method WalkKeys(g: Head, S: array2<real>, P: array2<real>, o: array2<real>, exp: real -> real, rnd: real -> real,
                  ghost exact: bool, negMax: real, bq: nat, tpr: nat, cpt: nat, bk: nat,
                  ghost rows: seq<seq<Key>>, ghost cols: seq<seq<real>>)
    returns (m: seq<real>, l: seq<real>, ghost w: seq<seq<real>>)
    requires Sees(g, rows, cols) && |rows| == bq && bk > 0
    requires IsExp(exp) && IsRounding(rnd) && (exact ==> Identity(rnd)) && PowerOfTwo(tpr) && bk == tpr * cpt
    requires S.Length0 == P.Length0 == o.Length0 == bq && S.Length1 == P.Length1 == bk && o.Length1 == |cols|
    requires S != o && P != o && forall r: nat, d: nat | r < bq && d < |cols| :: o[r, d] == 0.0
    requires forall r :: 0 <= r < bq ==> SeedBelow(rows[r], negMax)
    modifies S, P, o
    ensures StateHolds(exp, exact, rows, negMax, w, m, l, TEnd(g.mode, |g.k|, g.q0, |g.q|))
    ensures OutsHold(o, w, cols)
  {
    var tLo, tEnd := TLo(g.mode, g.q0), TEnd(g.mode, |g.k|, g.q0, |g.q|);
    m, l := seq(bq, _ => negMax), seq(bq, _ => 0.0);
    ghost var n := if tLo < tEnd then tLo else tEnd;
    w := StartAll(g, exp, exact, negMax, n, rows, cols, o);
    var kb := tLo;
    while kb < tEnd
      invariant n == if kb < tEnd then kb else tEnd
      invariant StateHolds(exp, exact, rows, negMax, w, m, l, n) && OutsHold(o, w, cols)
      decreases tEnd - kb
    {
      m, l, w := RunBlock(g, S, P, o, exp, rnd, exact, negMax, tpr, cpt, bk, kb, tEnd, m, l, rows, cols, w);
      kb := kb + bk;
      n := if kb < tEnd then kb else tEnd;
    }
  }

  lemma {:induction false} StartAll(g: Head, exp: real -> real, exact: bool, negMax: real, n: nat, rows: seq<seq<Key>>,
                 cols: seq<seq<real>>, o: array2<real>)
    returns (w: seq<seq<real>>)
    requires Sees(g, rows, cols) && o.Length0 == |rows| && o.Length1 == |cols|
    requires n == var lo, e := TLo(g.mode, g.q0), TEnd(g.mode, |g.k|, g.q0, |g.q|); if lo < e then lo else e
    requires forall r: nat, d: nat | r < |rows| && d < |cols| :: o[r, d] == 0.0
    ensures |w| == |rows| && OutsHold(o, w, cols)
    ensures StateHolds(exp, exact, rows, negMax, w, seq(|rows|, _ => negMax), seq(|rows|, _ => 0.0), n)
  {
    w := seq(|rows|, _ => seq(n, _ => 0.0));
    forall r: nat | r < |rows|
      ensures |w[r]| == n <= |g.k| && RowState(exp, exact, rows[r], negMax, w[r], negMax, 0.0)
    {
      StartRow(g, r, n);
      StartState(exp, exact, rows[r], negMax, n);
    }
    forall r: nat, d: nat | r < |rows| && d < |cols| ensures OutIs(w[r], cols[d], o[r, d]) {
      StartRow(g, r, n);
      ZeroBlend(w[r], cols[d], n);
    }
  }

  // ---- what a finished row means ----

  function Inverse(l: real): real { if l > 0.0 then 1.0 / l else 0.0 }

  // Any rounding: a row that has seen a live key is a convex combination of live values.
  lemma {:induction false} FinishedRow(row: seq<Key>, negMax: real, w: seq<real>, m: real, l: real)
    requires RowIs(row, negMax, w, m, l)
    ensures SomeLive(row, |w|) ==> l > 0.0 && Convex(row, Scale(w, Inverse(l)))
    ensures !SomeLive(row, |w|) ==> l == 0.0
  {
    TotalSign(w, |w|);
    if SomeLive(row, |w|) {
      ScaleSums(w, Inverse(l), seq(|w|, _ => 0.0), |w|);
      forall t | 0 <= t < |w|
        ensures var c := Scale(w, Inverse(l))[t]; c >= 0.0 && (!row[t].live ==> c == 0.0)
      {
        assert Scale(w, Inverse(l))[t] == Scaled(w[t], Inverse(l));
      }
    }
  }

  lemma {:induction false} FinishedOut(w: seq<real>, col: seq<real>, x: real, l: real)
    requires OutIs(w, col, x)
    ensures Scaled(x, Inverse(l)) == Blend(Scale(w, Inverse(l)), col, |w|)
  {
    ScaleSums(w, Inverse(l), col, |w|);
  }

  lemma {:induction false} ExactSums(exp: real -> real, row: seq<Key>, v: seq<real>, w: seq<real>, m: real, n: nat)
    requires ExactIs(exp, row, w, m) && n <= |w| && n <= |v|
    ensures Total(w, n) == Mass(exp, row, m, n) && Blend(w, v, n) == Mix(exp, row, v, m, n)
  {
    if n > 0 {
      ExactSums(exp, row, v, w, m, n - 1);
    }
  }

  // No rounding: the row is the exact softmax, and its log-sum-exp is the log of the unshifted sum.
  lemma {:induction false} FinishedExact(exp: real -> real, row: seq<Key>, negMax: real, w: seq<real>, m: real, l: real, col: seq<real>, x: real)
    requires IsExp(exp) && RowIs(row, negMax, w, m, l) && ExactIs(exp, row, w, m) && OutIs(w, col, x) && |col| == |row|
    requires forall t :: |w| <= t < |row| ==> !row[t].live
    ensures Scaled(x, Inverse(l)) == Attend(exp, row, col)
  {
    ExactSums(exp, row, col, w, m, |w|);
    DeadSpan(exp, row, col, m, |w|, |row|);
    NormaliseAnyShift(exp, row, col, m);
  }

  lemma {:induction false} FinishedLse(exp: real -> real, ln: real -> real, row: seq<Key>, negMax: real, w: seq<real>, m: real, l: real)
    requires IsExp(exp) && IsLog(exp, ln) && RowIs(row, negMax, w, m, l) && ExactIs(exp, row, w, m) && l > 0.0
    requires forall t :: |w| <= t < |row| ==> !row[t].live
    ensures m + ln(l) == ln(Mass(exp, row, 0.0, |row|))
  {
    var zeros := seq(|row|, _ => 0.0);
    ExactSums(exp, row, zeros, w, m, |w|);
    DeadSpan(exp, row, zeros, m, |w|, |row|);
    Rescale(exp, row, zeros, m, 0.0, |row|);
    assert m - 0.0 == m;
    assert Mass(exp, row, 0.0, |row|) == l * exp(m);
    assert Hom(exp, m, ln(l));
    assert exp(m + ln(l)) == Mass(exp, row, 0.0, |row|);
    assert ln(exp(m + ln(l))) == m + ln(l);
  }

  // What the kernel stores for a row: its outputs, its log-sum-exp, and (ghost) the coefficients behind them.
  ghost predicate RowResult(exp: real -> real, ln: real -> real, exact: bool, fltMax: real, row: seq<Key>,
                            cols: seq<seq<real>>, out: seq<real>, lse: real, coef: seq<real>) {
    |out| == |cols| && |coef| <= |row|
    && (if SomeLive(row, |row|) then
          Convex(row, coef) && forall d :: 0 <= d < |cols| ==> OutIs(coef, cols[d], out[d])
        else lse == fltMax && forall d :: 0 <= d < |cols| ==> out[d] == 0.0)
    && (exact ==> (forall d :: 0 <= d < |cols| && |cols[d]| == |row| ==> out[d] == Attend(exp, row, cols[d]))
                  && (SomeLive(row, |row|) ==> lse == ln(Mass(exp, row, 0.0, |row|))))
  }

  // The closing loops for one row.
  method StoreRowResult(o: array2<real>, r: nat, exp: real -> real, ln: real -> real, ghost exact: bool, fltMax: real,
                        ghost negMax: real, m: real, l: real, ghost row: seq<Key>, ghost cols: seq<seq<real>>,
                        ghost w: seq<real>)
    returns (out: seq<real>, lse: real, ghost coef: seq<real>)
    requires IsExp(exp) && IsLog(exp, ln) && r < o.Length0 && o.Length1 == |cols|
    requires RowState(exp, exact, row, negMax, w, m, l) && forall t :: |w| <= t < |row| ==> !row[t].live
    requires forall d: nat | d < |cols| :: |cols[d]| == |row| && OutIs(w, cols[d], o[r, d])
    ensures RowResult(exp, ln, exact, fltMax, row, cols, out, lse, coef)
  {
    var inv := Inverse(l);
    coef := Scale(w, inv);
    FinishedRow(row, negMax, w, m, l);
    assert SomeLive(row, |row|) <==> SomeLive(row, |w|);
    out := [];
    while |out| < o.Length1
      invariant |out| <= |cols|
      invariant forall d :: 0 <= d < |out| ==> OutIs(coef, cols[d], out[d]) && (l == 0.0 ==> out[d] == 0.0)
      invariant exact ==> forall d :: 0 <= d < |out| ==> out[d] == Attend(exp, row, cols[d])
    {
      var d := |out|;
      assert OutIs(w, cols[d], o[r, d]);
      FinishedOut(w, cols[d], o[r, d], l);
      if exact {
        FinishedExact(exp, row, negMax, w, m, l, cols[d], o[r, d]);
      }
      out := out + [Scaled(o[r, d], inv)];
    }
    lse := if l > 0.0 then m + ln(l) else fltMax;
    if exact && l > 0.0 {
      FinishedLse(exp, ln, row, negMax, w, m, l);
    }
  }

  // The threadgroup: walk the key range, then store every live row. For any nonnegative rounding of P that
  // keeps 0 and 1 a nonempty row is a convex combination of its live values; unrounded it is the softmax.
  method AttnTiledCore(g: Head, exp: real -> real, ln: real -> real, rnd: real -> real, ghost exact: bool,
                       negMax: real, fltMax: real, bq: nat, tpr: nat, cpt: nat, inPlace: bool)
    returns (outs: seq<seq<real>>, lse: seq<real>, ghost coefs: seq<seq<real>>, ghost cols: seq<seq<real>>)
    requires g.Valid() && |g.q| <= bq && PowerOfTwo(tpr) && cpt > 0
    requires IsExp(exp) && IsLog(exp, ln) && IsRounding(rnd) && (exact ==> Identity(rnd))
    requires forall r: nat :: r < bq ==> SeedBelow(g.Row(r), negMax)
    ensures |outs| == |lse| == |coefs| == |g.q| && |cols| == g.dim
    ensures forall d: nat :: d < g.dim ==> cols[d] == Column(g.v, g.dim, d)
    ensures forall r: nat :: r < |g.q| ==> RowResult(exp, ln, exact, fltMax, g.Row(r), cols, outs[r], lse[r], coefs[r])
  {
    var bk := tpr * cpt;
    ghost var rows := seq(bq, r requires 0 <= r => g.Row(r));
    cols := seq(g.dim, d requires 0 <= d < g.dim => Column(g.v, g.dim, d));
    var S := new real[bq, bk];
    var P := S;
    if !inPlace {
      P := new real[bq, bk];
    }
    var o := new real[bq, g.dim]((_, _) => 0.0);
    var m, l, w := WalkKeys(g, S, P, o, exp, rnd, exact, negMax, bq, tpr, cpt, bk, rows, cols);
    outs, lse, coefs := StoreResults(g, o, exp, ln, exact, fltMax, negMax, m, l, rows, cols, w);
  }

  // The live rows of the tile.
  method StoreResults(g: Head, o: array2<real>, exp: real -> real, ln: real -> real, ghost exact: bool, fltMax: real,
                      ghost negMax: real, m: seq<real>, l: seq<real>, ghost rows: seq<seq<Key>>,
                      ghost cols: seq<seq<real>>, ghost w: seq<seq<real>>)
    returns (outs: seq<seq<real>>, lse: seq<real>, ghost coefs: seq<seq<real>>)
    requires Sees(g, rows, cols) && IsExp(exp) && IsLog(exp, ln)
    requires StateHolds(exp, exact, rows, negMax, w, m, l, TEnd(g.mode, |g.k|, g.q0, |g.q|))
    requires o.Length0 == |rows| && o.Length1 == |cols| && OutsHold(o, w, cols)
    ensures |outs| == |lse| == |coefs| == |g.q|
    ensures forall r: nat :: r < |g.q| ==> RowResult(exp, ln, exact, fltMax, rows[r], cols, outs[r], lse[r], coefs[r])
  {
    outs, lse, coefs := [], [], [];
    for r := 0 to |g.q|
      invariant |outs| == |lse| == |coefs| == r
      invariant forall i: nat :: i < r ==> RowResult(exp, ln, exact, fltMax, rows[i], cols, outs[i], lse[i], coefs[i])
    {
      EndRow(g, r, TEnd(g.mode, |g.k|, g.q0, |g.q|));
      var out, x, coef := StoreRowResult(o, r, exp, ln, exact, fltMax, negMax, m[r], l[r], rows[r], cols, w[r]);
      outs, lse, coefs := outs + [out], lse + [x], coefs + [coef];
    }
  }
}
