// The whole cross-entropy call (src/cross_entropy.rs), over the elements it is handed.
module CeCall {
  import opened Common
  import opened OnlineSoftmax
  import opened CeRow
  import opened CeWalk

  datatype Checked = Accepted | Refused(error: CeError)

  // The hidden states: columns [off, off + width) of each row.
  datatype Hidden = Hidden(states: seq<seq<real>>, ld: nat, off: nat)
  {
    ghost predicate Valid() { forall r :: 0 <= r < |states| ==> |states[r]| == ld }
  }

  // What a call is handed: hidden states, the weight of `hs` columns, the supervised rows and their targets, and the logit
  // GEMM of the caller's lane.
  datatype Call = Call(hid: Hidden, w: seq<seq<real>>, hs: nat, rows: seq<nat>, targets: seq<nat>, dot: (seq<real>, seq<real>) -> Logit)
  {
    ghost predicate Valid() { hid.Valid() && forall v :: 0 <= v < |w| ==> |w[v]| == hs }

    // What the checks let through.
    ghost predicate InputsOk(maxRows: nat) {
      |rows| <= maxRows && 0 < |rows| == |targets| && |w| > 0 && hid.off + hs <= hid.ld
      && (forall i :: 0 <= i < |rows| ==> rows[i] < |hid.states|) && (forall i :: 0 <= i < |rows| ==> targets[i] < |w|)
    }

    ghost predicate Accepted() { Valid() && InputsOk(|rows|) }

    // Element k of the i-th supervised row.
    function HiddenAt(i: nat, k: nat): real
      requires i < |rows| && rows[i] < |hid.states| && k < hs && hid.off + hs <= |hid.states[rows[i]]|
    {
      hid.states[rows[i]][hid.off + k]
    }

    // Its logits: its window against every vocabulary row.
    ghost function Logits(i: nat): (z: seq<Logit>)
      requires Accepted() && i < |rows|
      ensures |z| == |w|
    {
      seq(|w|, v requires 0 <= v < |w| => dot(hid.states[rows[i]][hid.off..hid.off + hs], w[v]))
    }

    // The gradient of its v-th logit: scale * (softmax - [v is the target]).
    ghost function LogitGrad(exp: real -> real, scale: real, i: nat, v: nat): real
      requires Accepted() && i < |rows| && v < |w|
    {
      Scaled(Grad(exp, Logits(i), targets[i], v), scale)
    }

    // That gradient times the weight, and times the hidden state, summed over n vocabulary rows, and n supervised rows.
    ghost function HiddenGrad(exp: real -> real, scale: real, i: nat, k: nat, n: nat): real
      requires Accepted() && i < |rows| && k < hs && n <= |w|
    {
      if n == 0 then 0.0 else HiddenGrad(exp, scale, i, k, n - 1) + LogitGrad(exp, scale, i, n - 1) * w[n - 1][k]
    }

    ghost function WeightGrad(exp: real -> real, scale: real, v: nat, k: nat, n: nat): real
      requires Accepted() && v < |w| && k < hs && n <= |rows|
    {
      if n == 0 then 0.0 else WeightGrad(exp, scale, v, k, n - 1) + LogitGrad(exp, scale, n - 1, v) * HiddenAt(n - 1, k)
    }
  }

  // The checks that read the call's own numbers, in order (validate_ce_inputs, after the workspace's row limit).
  method Validate(c: Call, maxRows: nat) returns (r: Checked)
    ensures r.Accepted? <==> c.InputsOk(maxRows)
    ensures r.Refused? ==> !r.error.NotFinite?
    ensures r.Refused? && r.error.RowPastEnd? ==>
              r.error.i < |c.rows| && c.rows[r.error.i] >= |c.hid.states| && forall i :: 0 <= i < r.error.i ==> c.rows[i] < |c.hid.states|
    ensures r.Refused? && r.error.TargetPastEnd? ==>
              r.error.i < |c.targets| && c.targets[r.error.i] >= |c.w| && forall i :: 0 <= i < r.error.i ==> c.targets[i] < |c.w|
  {
    if |c.rows| > maxRows {
      return Refused(TooManyRows);
    }
    if |c.rows| == 0 {
      return Refused(NoRows);
    }
    if |c.targets| != |c.rows| {
      return Refused(TargetCount);
    }
    if |c.w| == 0 {
      return Refused(EmptyVocabulary);
    }
    if c.hid.off + c.hs > c.hid.ld {
      return Refused(HiddenWindow);
    }
    for i := 0 to |c.rows|
      invariant forall k :: 0 <= k < i ==> c.rows[k] < |c.hid.states|
    {
      if c.rows[i] >= |c.hid.states| {
        return Refused(RowPastEnd(i));
      }
    }
    for i := 0 to |c.targets|
      invariant forall k :: 0 <= k < i ==> c.targets[k] < |c.w|
    {
      if c.targets[i] >= |c.w| {
        return Refused(TargetPastEnd(i));
      }
    }
    r := Accepted;
  }

  // ce_gather_rows, column by column of row after row.
  method GatherRows(c: Call) returns (h: seq<seq<real>>)
    requires c.Accepted()
    ensures |h| == |c.rows| && forall i :: 0 <= i < |c.rows| ==> |h[i]| == c.hs
    ensures forall i, k :: 0 <= i < |c.rows| && 0 <= k < c.hs ==> h[i][k] == c.hid.states[c.rows[i]][c.hid.off + k]
  {
    h := [];
    for n := 0 to |c.rows|
      invariant |h| == n && forall i :: 0 <= i < n ==> |h[i]| == c.hs
      invariant forall i, k :: 0 <= i < n && 0 <= k < c.hs ==> h[i][k] == c.hid.states[c.rows[i]][c.hid.off + k]
    {
      var row := [];
      for col := 0 to c.hs
        invariant |row| == col && forall k :: 0 <= k < col ==> row[k] == c.hid.states[c.rows[n]][c.hid.off + k]
      {
        row := row + [c.hid.states[c.rows[n]][c.hid.off + col]];
      }
      h := h + [row];
    }
  }

  // ce works on the rows c names.
  ghost predicate WorksOn(ce: Ce, c: Call) {
    c.Accepted() && ce.Valid() && ce.w == c.w && ce.targets == c.targets && ce.hs == c.hs && ce.dot == c.dot && |ce.h| == |c.rows|
    && forall i, k :: 0 <= i < |c.rows| && 0 <= k < c.hs ==> ce.h[i][k] == c.HiddenAt(i, k)
  }

  lemma {:induction false} RowIsLogits(ce: Ce, c: Call, i: nat)
    requires WorksOn(ce, c) && i < |c.rows|
    ensures ce.Row(i) == c.Logits(i)
  {
    var window := c.hid.states[c.rows[i]][c.hid.off..c.hid.off + c.hs];
    forall k | 0 <= k < c.hs ensures ce.h[i][k] == window[k] {
      assert ce.h[i][k] == c.HiddenAt(i, k);
    }
    assert ce.h[i] == window;
    forall v | 0 <= v < |c.w| ensures ce.Row(i)[v] == c.Logits(i)[v] {
    }
  }

  lemma {:induction false} LogitGradIs(exp: real -> real, scale: real, ce: Ce, c: Call, i: nat, v: nat)
    requires WorksOn(ce, c) && i < |c.rows| && v < |c.w|
    ensures ce.G(exp, scale, i, v) == c.LogitGrad(exp, scale, i, v)
  {
    RowIsLogits(ce, c, i);
  }

  // One more term, `term`, of each sum.
  lemma {:induction false} HiddenStep(exp: real -> real, scale: real, c: Call, i: nat, k: nat, n: nat, term: real)
    requires c.Accepted() && i < |c.rows| && k < c.hs && n < |c.w| && term == Scaled(c.LogitGrad(exp, scale, i, n), c.w[n][k])
    ensures c.HiddenGrad(exp, scale, i, k, n + 1) == c.HiddenGrad(exp, scale, i, k, n) + term
  {
  }

  lemma {:induction false} DhTerm(exp: real -> real, scale: real, ce: Ce, i: nat, k: nat, n: nat, term: real)
    requires ce.Valid() && i < |ce.h| && k < ce.hs && n < |ce.w| && term == Scaled(ce.G(exp, scale, i, n), ce.w[n][k])
    ensures ce.Dh(exp, scale, i, k, n + 1) == ce.Dh(exp, scale, i, k, n) + term
  {
  }

  lemma {:induction false} WeightStep(exp: real -> real, scale: real, c: Call, v: nat, k: nat, n: nat, term: real)
    requires c.Accepted() && v < |c.w| && k < c.hs && n < |c.rows| && term == Scaled(c.LogitGrad(exp, scale, n, v), c.HiddenAt(n, k))
    ensures c.WeightGrad(exp, scale, v, k, n + 1) == c.WeightGrad(exp, scale, v, k, n) + term
  {
  }

  lemma {:induction false} DwTerm(exp: real -> real, scale: real, ce: Ce, v: nat, k: nat, n: nat, term: real)
    requires ce.Valid() && v < |ce.w| && k < ce.hs && n < |ce.h| && term == Scaled(ce.G(exp, scale, n, v), ce.h[n][k])
    ensures ce.Dw(exp, scale, v, k, n + 1) == ce.Dw(exp, scale, v, k, n) + term
  {
  }

  lemma {:induction false} HiddenGradIs(exp: real -> real, scale: real, ce: Ce, c: Call, i: nat, k: nat, n: nat)
    requires WorksOn(ce, c) && i < |c.rows| && k < c.hs && n <= |c.w|
    ensures ce.Dh(exp, scale, i, k, n) == c.HiddenGrad(exp, scale, i, k, n)
  {
    if n > 0 {
      HiddenGradIs(exp, scale, ce, c, i, k, n - 1);
      LogitGradIs(exp, scale, ce, c, i, n - 1);
      var term := Scaled(c.LogitGrad(exp, scale, i, n - 1), c.w[n - 1][k]);
      HiddenStep(exp, scale, c, i, k, n - 1, term);
      DhTerm(exp, scale, ce, i, k, n - 1, term);
    }
  }

  lemma {:induction false} WeightGradIs(exp: real -> real, scale: real, ce: Ce, c: Call, v: nat, k: nat, n: nat)
    requires WorksOn(ce, c) && v < |c.w| && k < c.hs && n <= |c.rows|
    ensures ce.Dw(exp, scale, v, k, n) == c.WeightGrad(exp, scale, v, k, n)
  {
    if n > 0 {
      WeightGradIs(exp, scale, ce, c, v, k, n - 1);
      LogitGradIs(exp, scale, ce, c, n - 1, v);
      var term := Scaled(c.LogitGrad(exp, scale, n - 1, v), c.HiddenAt(n - 1, k));
      WeightStep(exp, scale, c, v, k, n - 1, term);
      DwTerm(exp, scale, ce, v, k, n - 1, term);
    }
  }

  // ---------- what a call returns ----------

  // Every row's own loss, and their sum or mean; or the first row whose loss is infinite.
  ghost predicate LossesAre(exp: real -> real, ln: real -> real, c: Call, mean: bool, r: CeResult)
    requires c.Accepted()
  {
    match r
    case Done(loss, perRow) =>
      |perRow| == |c.rows| && loss == Total(perRow) / (if mean then |c.rows| as real else 1.0)
      && forall i :: 0 <= i < |c.rows| ==> Loss(exp, ln, c.Logits(i), c.targets[i]) == Finite(perRow[i])
    case Failed(error) =>
      error.NotFinite? && error.i < |c.rows| && Loss(exp, ln, c.Logits(error.i), c.targets[error.i]).Infinite?
      && forall i :: 0 <= i < error.i ==> Loss(exp, ln, c.Logits(i), c.targets[i]).Finite?
  }

  // dh, and dW: over what was there, added to it, or handed to the sink in consecutive blocks of rows.
  ghost predicate GradsAre(dh: array2<real>, dw: array2<real>, log: seq<SinkCall>, mode: DwMode, was: (nat, nat) -> real,
                           exp: real -> real, scale: real, c: Call)
    reads dh, dw
    requires c.Accepted()
  {
    dh.Length0 == |c.rows| && dh.Length1 == c.hs
    && (forall i, k :: 0 <= i < |c.rows| && 0 <= k < c.hs ==> dh[i, k] == c.HiddenGrad(exp, scale, i, k, |c.w|))
    && (mode == Chunks ==> SinkGiven(log, exp, scale, c, |c.w|))
    && (mode != Chunks ==>
          dw.Length0 == |c.w| && dw.Length1 == c.hs
          && forall v, k :: 0 <= v < |c.w| && 0 <= k < c.hs ==>
               dw[v, k] == (if mode == Add then was(v, k) else 0.0) + c.WeightGrad(exp, scale, v, k, |c.rows|))
  }

  ghost predicate SinkGiven(log: seq<SinkCall>, exp: real -> real, scale: real, c: Call, n: nat)
    requires c.Accepted() && n <= |c.w|
  {
    if log == [] then n == 0
    else
      var last := log[|log| - 1];
      last.v0 + |last.rows| == n && last.rows != [] && SinkGiven(log[..|log| - 1], exp, scale, c, last.v0)
      && forall v, k :: 0 <= v < |last.rows| && 0 <= k < c.hs ==>
           |last.rows[v]| == c.hs && last.rows[v][k] == c.WeightGrad(exp, scale, last.v0 + v, k, |c.rows|)
  }

  lemma {:induction false} SinkIsGiven(log: seq<SinkCall>, exp: real -> real, scale: real, ce: Ce, c: Call, n: nat)
    requires WorksOn(ce, c) && n <= |c.w| && SinkHas(log, exp, scale, ce, n)
    ensures SinkGiven(log, exp, scale, c, n)
  {
    if log != [] {
      var last := log[|log| - 1];
      SinkIsGiven(log[..|log| - 1], exp, scale, ce, c, last.v0);
      forall v, k | 0 <= v < |last.rows| && 0 <= k < c.hs
        ensures |last.rows[v]| == c.hs && last.rows[v][k] == c.WeightGrad(exp, scale, last.v0 + v, k, |c.rows|)
      {
        WeightGradIs(exp, scale, ce, c, last.v0 + v, k, |c.rows|);
      }
    }
  }

  lemma {:induction false} LossesFrom(exp: real -> real, ln: real -> real, ce: Ce, c: Call, mean: bool, r: CeResult)
    requires WorksOn(ce, c) && LossesOut(exp, ln, ce, mean, r)
    ensures LossesAre(exp, ln, c, mean, r)
  {
    forall i: nat | i < |c.rows| ensures LossOf(exp, ln, ce, i) == Loss(exp, ln, c.Logits(i), c.targets[i]) {
      RowIsLogits(ce, c, i);
    }
  }

  lemma {:induction false} GradsFrom(dh: array2<real>, dw: array2<real>, log: seq<SinkCall>, mode: DwMode, was: (nat, nat) -> real,
                                     exp: real -> real, scale: real, ce: Ce, c: Call)
    requires WorksOn(ce, c) && GradsOut(dh, dw, log, mode, was, exp, scale, ce, |c.w|)
    ensures GradsAre(dh, dw, log, mode, was, exp, scale, c)
  {
    forall i, k | 0 <= i < |c.rows| && 0 <= k < c.hs ensures dh[i, k] == c.HiddenGrad(exp, scale, i, k, |c.w|) {
      HiddenGradIs(exp, scale, ce, c, i, k, |c.w|);
    }
    if mode == Chunks {
      SinkIsGiven(log, exp, scale, ce, c, |c.w|);
    } else {
      forall v, k | 0 <= v < |c.w| && 0 <= k < c.hs
        ensures dw[v, k] == (if mode == Add then was(v, k) else 0.0) + c.WeightGrad(exp, scale, v, k, |c.rows|)
      {
        WeightGradIs(exp, scale, ce, c, v, k, |c.rows|);
      }
    }
  }

  // What the losses of a gathered problem are.
  ghost predicate LossesOut(exp: real -> real, ln: real -> real, ce: Ce, mean: bool, r: CeResult)
    requires ce.Valid()
  {
    match r
    case Done(loss, perRow) =>
      |perRow| == |ce.h| && loss == Total(perRow) / (if mean then |ce.h| as real else 1.0)
      && forall i :: 0 <= i < |ce.h| ==> LossOf(exp, ln, ce, i) == Finite(perRow[i])
    case Failed(error) =>
      error.NotFinite? && error.i < |ce.h| && LossOf(exp, ln, ce, error.i).Infinite?
      && forall i :: 0 <= i < error.i ==> LossOf(exp, ln, ce, i).Finite?
  }

  // The whole call: a refused one touches nothing; an accepted one gathers its rows and returns the unchunked losses,
  // with the gradients when they are wanted and without touching their buffers when not.
  method CrossEntropy(exp: real -> real, ln: real -> real, c: Call, maxRows: nat, chunk: nat, floor: real, mean: bool,
                      grads: bool, scale: real, logits: array2<Logit>, m: array<real>, s: array<real>, tlogit: array<Logit>,
                      dh: array2<real>, dw: array2<real>, mode: DwMode, maxThreads: nat, ghost was: (nat, nat) -> real)
    returns (r: CeResult, log: seq<SinkCall>)
    requires IsExp(exp) && IsLog(exp, ln) && c.Valid() && chunk > 0
    requires maxRows <= logits.Length0 && chunk <= logits.Length1 && m != s && dh != dw
    requires maxRows <= m.Length && maxRows <= s.Length && maxRows <= tlogit.Length
    requires grads ==> dh.Length0 == |c.rows| && dh.Length1 == c.hs && (mode != Chunks ==> dw.Length0 == |c.w| && dw.Length1 == c.hs)
    requires grads && mode != Chunks ==> forall v, k :: 0 <= v < |c.w| && 0 <= k < c.hs ==> dw[v, k] == was(v, k)
    modifies logits, m, s, tlogit, dh, dw
    ensures !c.InputsOk(maxRows) ==> r.Failed? && !r.error.NotFinite?
    ensures !c.InputsOk(maxRows) || !grads ==> unchanged(dh) && unchanged(dw) && log == []
    ensures c.InputsOk(maxRows) ==> LossesAre(exp, ln, c, mean, r)
    ensures c.InputsOk(maxRows) && grads ==> GradsAre(dh, dw, log, mode, was, exp, scale / (if mean then |c.rows| as real else 1.0), c)
  {
    log := [];
    var checked := Validate(c, maxRows);
    if checked.Refused? {
      return Failed(checked.error), [];
    }
    var h := GatherRows(c);
    var ce := Ce(h, c.w, c.targets, c.hs, c.dot);
    assert WorksOn(ce, c);
    if grads {
      r, log := CeRows(exp, ln, ce, chunk, floor, mean, scale, logits, m, s, tlogit, dh, dw, mode, maxThreads, was);
      GradsFrom(dh, dw, log, mode, was, exp, scale / (if mean then |c.rows| as real else 1.0), ce, c);
    } else {
      FirstWalk(exp, ce, chunk, floor, logits, m, s, tlogit, maxThreads);
      r := Losses(exp, ln, ce, floor, m, s, tlogit, mean);
    }
    LossesFrom(exp, ln, ce, c, mean, r);
  }
}
