// The tiled FlashAttention-2 body (kernels/attn_fa2.h): one threadgroup computes a tile of query rows,
// streaming the keys in blocks through threadgroup memory.
module AttnFa2 {
  import opened Common
  import opened OnlineSoftmax
  import opened Layout
  import opened Lanes
  import opened AttnMask

  const D_TILE: nat := 32

  // What one threadgroup works on, as vectors: its query rows from position q0, and its head's keys and
  // values.
  datatype Tile = Tile(a: Launch, q0: nat, q: seq<seq<real>>, k: seq<seq<real>>, v: seq<seq<real>>)
  {
    ghost predicate Valid() {
      AllDim(q, a.headDim) && AllDim(k, a.headDim) && AllDim(v, a.headDim) && |k| == |v|
    }

    ghost function Row(r: nat): (row: seq<Key>)
      requires Valid() && r < |q|
      ensures |row| == |k|
    {
      RowKeys(a, q[r], k, q0 + r)
    }

    ghost function Col(d: nat): (col: seq<real>)
      requires Valid() && d < a.headDim
      ensures |col| == |k|
    {
      Column(v, a.headDim, d)
    }
  }

  // x is the dot product of query row r and key j over the first `dims` coordinates.
  ghost predicate ScoreIs(g: Tile, x: real, r: nat, j: nat, dims: nat)
    requires g.Valid() && r < |g.q| && j < |g.k| && dims <= g.a.headDim
  {
    x == Dot(g.q[r], g.k[j], dims)
  }

  // The rows and columns of a tile, without the vectors they come from.
  datatype View = View(rows: seq<seq<Key>>, cols: seq<seq<real>>, n: nat)
  {
    ghost predicate Valid() {
      (forall r :: 0 <= r < |rows| ==> |rows[r]| == n) && forall d :: 0 <= d < |cols| ==> |cols[d]| == n
    }
  }

  // x is output coordinate d of row r over its first n keys, weighted against the shift m.
  ghost predicate AccIs(w: View, exp: real -> real, x: real, r: nat, d: nat, m: real, n: nat)
    requires w.Valid() && r < |w.rows| && d < |w.cols| && n <= w.n
  {
    x == Mix(exp, w.rows[r], w.cols[d], m, n)
  }

  // Q.K^T over one 32-wide slice, added into every row's scores. A lane owns a row; lanes interleave key
  // by key in any order.
  method AddScores(g: Tile, scores: array2<real>, ks: array2<real>, t0: nat, n_k: nat, d0: nat)
    requires g.Valid() && t0 + n_k <= |g.k| && d0 + D_TILE <= g.a.headDim
    requires scores != ks && scores.Length0 >= |g.q| && scores.Length1 >= n_k
    requires ks.Length0 >= n_k && ks.Length1 == D_TILE
    requires forall tk: nat, d: nat | tk < n_k && d < D_TILE :: ks[tk, d] == g.k[t0 + tk][d0 + d]
    requires forall r: nat, tk: nat | r < |g.q| && tk < n_k :: ScoreIs(g, scores[r, tk], r, t0 + tk, d0)
    modifies scores
    ensures forall r: nat, tk: nat | r < |g.q| && tk < n_k :: ScoreIs(g, scores[r, tk], r, t0 + tk, d0 + D_TILE)
  {
    var pc: seq<nat> := seq(|g.q|, _ => 0);
    while exists lid :: 0 <= lid < |g.q| && pc[lid] < n_k
      invariant |pc| == |g.q|
      invariant forall r: nat, tk: nat | r < |g.q| && tk < n_k ::
        ScoreIs(g, scores[r, tk], r, t0 + tk, if tk < pc[r] then d0 + D_TILE else d0)
      decreases Work(pc, n_k)
    {
      var lid: nat :| lid < |g.q| && pc[lid] < n_k;
      var tk: nat := pc[lid];
      var s := SliceDot(g, g.q[lid], ks, lid, t0, tk, n_k, d0);
      assert ScoreIs(g, scores[lid, tk], lid, t0 + tk, d0);
      scores[lid, tk] := scores[lid, tk] + s;
      WorkDrops(pc, lid, tk + 1, n_k);
      pc := pc[lid := tk + 1];
    }
  }

  // One key's partial score over the slice staged in `ks`.
  method SliceDot(ghost g: Tile, q: seq<real>, ks: array2<real>, ghost r: nat, ghost t0: nat, tk: nat,
                  ghost n_k: nat, d0: nat)
    returns (s: real)
    requires g.Valid() && r < |g.q| && q == g.q[r] && tk < n_k && t0 + n_k <= |g.k| && d0 + D_TILE <= g.a.headDim
    requires ks.Length0 >= n_k && ks.Length1 == D_TILE
    requires forall d: nat | d < D_TILE :: ks[tk, d] == g.k[t0 + tk][d0 + d]
    ensures Dot(g.q[r], g.k[t0 + tk], d0) + s == Dot(g.q[r], g.k[t0 + tk], d0 + D_TILE)
  {
    s := 0.0;
    for d := 0 to D_TILE
      invariant Dot(q, g.k[t0 + tk], d0) + s == Dot(q, g.k[t0 + tk], d0 + d)
    {
      s := s + q[d0 + d] * ks[tk, d];
    }
  }

  // ---- the softmax pass of one row over the block [t0, t0 + n_k), in the kernel's own loops ----

  // Mask and scale the block's scores; their maximum, at least negMax.
  method MaskScores(ghost row: seq<Key>, a: Launch, t_q: nat, negMax: real, scores: array2<real>,
                    r: nat, t0: nat, n_k: nat)
    returns (m_block: real)
    requires t0 + n_k <= |row| && r < scores.Length0 && n_k <= scores.Length1
    requires forall tk: nat | tk < n_k && Keep(a, t_q, t0 + tk) :: scores[r, tk] * a.scale == row[t0 + tk].score
    modifies scores
    ensures forall tk: nat | tk < n_k && Keep(a, t_q, t0 + tk) :: scores[r, tk] == row[t0 + tk].score <= m_block
    ensures forall i: nat, j: nat | i != r && i < scores.Length0 && j < scores.Length1 :: scores[i, j] == old(scores[i, j])
  {
    m_block := negMax;
    for tk := 0 to n_k
      invariant forall j: nat | j < tk && Keep(a, t_q, t0 + j) :: scores[r, j] == row[t0 + j].score <= m_block
      invariant forall j: nat | tk <= j < n_k :: scores[r, j] == old(scores[r, j])
      invariant forall i: nat, j: nat | i != r && i < scores.Length0 && j < scores.Length1 ::
        scores[i, j] == old(scores[i, j])
    {
      KernelMaskIsKeep(a, t_q, t0 + tk);
      var live := KernelLive(a, t_q, t0 + tk);
      var score := if live then scores[r, tk] * a.scale else negMax;
      assert live ==> score == row[t0 + tk].score;
      ghost var was := m_block;
      scores[r, tk] := score;
      m_block := if m_block > score then m_block else score;
      forall j: nat | j < tk + 1 && Keep(a, t_q, t0 + j) ensures scores[r, j] == row[t0 + j].score <= m_block {
        if j < tk { assert scores[r, j] == row[t0 + j].score <= was; }
      }
    }
  }

  // Replace the block's scores by their weights against m_new; returns the weights' sum.
  method WeighScores(ghost row: seq<Key>, exp: real -> real, a: Launch, t_q: nat, scores: array2<real>,
                     r: nat, t0: nat, n_k: nat, m_new: real)
    returns (l_block: real)
    requires t0 + n_k <= |row| && r < scores.Length0 && n_k <= scores.Length1
    requires forall j :: 0 <= j < |row| ==> (row[j].live <==> Keep(a, t_q, j))
    requires forall tk: nat | tk < n_k && Keep(a, t_q, t0 + tk) :: scores[r, tk] == row[t0 + tk].score
    modifies scores
    ensures Mass(exp, row, m_new, t0) + l_block == Mass(exp, row, m_new, t0 + n_k)
    ensures forall tk: nat | tk < n_k :: scores[r, tk] == Weight(exp, row[t0 + tk], m_new)
    ensures forall i: nat, j: nat | i != r && i < scores.Length0 && j < scores.Length1 :: scores[i, j] == old(scores[i, j])
  {
    l_block := 0.0;
    for tk := 0 to n_k
      invariant Mass(exp, row, m_new, t0) + l_block == Mass(exp, row, m_new, t0 + tk)
      invariant forall j: nat | j < tk :: scores[r, j] == Weight(exp, row[t0 + j], m_new)
      invariant forall j: nat | tk <= j < n_k :: scores[r, j] == old(scores[r, j])
      invariant forall i: nat, j: nat | i != r && i < scores.Length0 && j < scores.Length1 ::
        scores[i, j] == old(scores[i, j])
    {
      KernelMaskIsKeep(a, t_q, t0 + tk);
      var live := KernelLive(a, t_q, t0 + tk);
      var p := if live then exp(scores[r, tk] - m_new) else 0.0;
      scores[r, tk] := p;
      l_block := l_block + p;
    }
  }

  // Multiply the row's accumulator by alpha: it then holds the same keys against the new maximum.
  method ScaleRow(ghost w: View, exp: real -> real, oacc: array2<real>, r: nat, ghost m_i: real, ghost m_new: real,
                  ghost n: nat, alpha: real)
    requires w.Valid() && IsExp(exp) && r < |w.rows| && n <= w.n
    requires r < oacc.Length0 && oacc.Length1 == |w.cols|
    requires alpha == if Mass(exp, w.rows[r], m_i, n) > 0.0 then exp(m_i - m_new) else 0.0
    requires forall d: nat | d < |w.cols| :: AccIs(w, exp, oacc[r, d], r, d, m_i, n)
    modifies oacc
    ensures forall d: nat | d < |w.cols| :: AccIs(w, exp, oacc[r, d], r, d, m_new, n)
    ensures forall i: nat, d: nat | i != r && i < oacc.Length0 && d < |w.cols| :: oacc[i, d] == old(oacc[i, d])
  {
    for d := 0 to oacc.Length1
      invariant forall e: nat | e < d :: AccIs(w, exp, oacc[r, e], r, e, m_new, n)
      invariant forall e: nat | d <= e < |w.cols| :: oacc[r, e] == old(oacc[r, e])
      invariant forall i: nat, e: nat | i != r && i < oacc.Length0 && e < |w.cols| :: oacc[i, e] == old(oacc[i, e])
    {
      assert AccIs(w, exp, old(oacc[r, d]), r, d, m_i, n);
      RescaleOrZero(exp, w.rows[r], w.cols[d], m_i, m_new, n, alpha);
      oacc[r, d] := oacc[r, d] * alpha;
    }
  }

  // What the row pass leaves of a block: its weights against m.
  ghost predicate WeightsAre(w: View, exp: real -> real, x: real, r: nat, j: nat, m: real)
    requires w.Valid() && r < |w.rows| && j < w.n
  {
    x == Weight(exp, w.rows[r][j], m)
  }

  // The whole pass for one row: raise the running maximum, rescale accumulator and sum, add the block's
  // weights to the sum and leave them in `scores`.
  method RowPass(ghost w: View, exp: real -> real, a: Launch, t_q: nat, negMax: real,
                 scores: array2<real>, oacc: array2<real>, r: nat, t0: nat, n_k: nat, m_i: real, l_i: real)
    returns (m_new: real, l_new: real)
    requires w.Valid() && IsExp(exp) && r < |w.rows| && t0 + n_k <= w.n
    requires forall j :: 0 <= j < w.n ==> (w.rows[r][j].live <==> Keep(a, t_q, j))
    requires scores != oacc && r < scores.Length0 && n_k <= scores.Length1
    requires r < oacc.Length0 && oacc.Length1 == |w.cols|
    requires forall tk: nat | tk < n_k && Keep(a, t_q, t0 + tk) :: scores[r, tk] * a.scale == w.rows[r][t0 + tk].score
    requires l_i == Mass(exp, w.rows[r], m_i, t0)
    requires forall d: nat | d < |w.cols| :: AccIs(w, exp, oacc[r, d], r, d, m_i, t0)
    modifies scores, oacc
    ensures l_new == Mass(exp, w.rows[r], m_new, t0 + n_k)
    ensures forall d: nat | d < |w.cols| :: AccIs(w, exp, oacc[r, d], r, d, m_new, t0)
    ensures forall tk: nat | tk < n_k :: WeightsAre(w, exp, scores[r, tk], r, t0 + tk, m_new)
    ensures forall i: nat, j: nat | i != r && i < scores.Length0 && j < scores.Length1 :: scores[i, j] == old(scores[i, j])
    ensures forall i: nat, d: nat | i != r && i < oacc.Length0 && d < |w.cols| :: oacc[i, d] == old(oacc[i, d])
  {
    ghost var row := w.rows[r];
    var m_block := MaskScores(row, a, t_q, negMax, scores, r, t0, n_k);
    m_new := if m_i > m_block then m_i else m_block;
    var alpha := if l_i > 0.0 then exp(m_i - m_new) else 0.0;
    var l_block := WeighScores(row, exp, a, t_q, scores, r, t0, n_k, m_new);
    ScaleRow(w, exp, oacc, r, m_i, m_new, t0, alpha);
    l_new := l_i * alpha + l_block;
    RescaleOrZero(exp, row, seq(|row|, _ => 0.0), m_i, m_new, t0, alpha);
  }

  // Row r of the block still has its raw scores ...
  ghost predicate RawRow(w: View, scores: array2<real>, scale: real, r: nat, t0: nat, n_k: nat)
    requires w.Valid() && r < |w.rows| && r < scores.Length0 && n_k <= scores.Length1 && t0 + n_k <= w.n
    reads scores
  {
    forall tk: nat | tk < n_k :: scores[r, tk] * scale == w.rows[r][t0 + tk].score
  }

  // ... or its weights against m, and its accumulator holds the first n keys.
  ghost predicate WeighedRow(w: View, exp: real -> real, scores: array2<real>, r: nat, t0: nat, n_k: nat, m: real)
    requires w.Valid() && r < |w.rows| && r < scores.Length0 && n_k <= scores.Length1 && t0 + n_k <= w.n
    reads scores
  {
    forall tk: nat | tk < n_k :: WeightsAre(w, exp, scores[r, tk], r, t0 + tk, m)
  }

  ghost predicate AccRow(w: View, exp: real -> real, oacc: array2<real>, r: nat, m: real, n: nat)
    requires w.Valid() && r < |w.rows| && r < oacc.Length0 && oacc.Length1 == |w.cols| && n <= w.n
    reads oacc
  {
    forall d: nat | d < |w.cols| :: AccIs(w, exp, oacc[r, d], r, d, m, n)
  }

  // RowPass, with what it leaves of the other rows.
  method PassRow(ghost w: View, exp: real -> real, a: Launch, t_q: nat, negMax: real,
                 scores: array2<real>, oacc: array2<real>, r: nat, t0: nat, n_k: nat, m_i: real, l_i: real)
    returns (m_new: real, l_new: real)
    requires w.Valid() && IsExp(exp) && r < |w.rows| && t0 + n_k <= w.n
    requires forall j :: 0 <= j < w.n ==> (w.rows[r][j].live <==> Keep(a, t_q, j))
    requires scores != oacc && |w.rows| <= scores.Length0 && n_k <= scores.Length1
    requires |w.rows| <= oacc.Length0 && oacc.Length1 == |w.cols|
    requires RawRow(w, scores, a.scale, r, t0, n_k) && AccRow(w, exp, oacc, r, m_i, t0)
    requires l_i == Mass(exp, w.rows[r], m_i, t0)
    modifies scores, oacc
    ensures l_new == Mass(exp, w.rows[r], m_new, t0 + n_k)
    ensures WeighedRow(w, exp, scores, r, t0, n_k, m_new) && AccRow(w, exp, oacc, r, m_new, t0)
    ensures forall i: nat | i != r && i < |w.rows| && old(RawRow(w, scores, a.scale, i, t0, n_k)) ::
      RawRow(w, scores, a.scale, i, t0, n_k)
    ensures forall i: nat, m | i != r && i < |w.rows| && old(WeighedRow(w, exp, scores, i, t0, n_k, m)) ::
      WeighedRow(w, exp, scores, i, t0, n_k, m)
    ensures forall i: nat, m | i != r && i < |w.rows| && old(AccRow(w, exp, oacc, i, m, t0)) :: AccRow(w, exp, oacc, i, m, t0)
  {
    m_new, l_new := RowPass(w, exp, a, t_q, negMax, scores, oacc, r, t0, n_k, m_i, l_i);
  }

  // The softmax pass of a block: every row once, lanes in any order.
  method SoftmaxPass(ghost w: View, exp: real -> real, a: Launch, q0: nat, rows: nat, negMax: real,
                     scores: array2<real>, oacc: array2<real>, t0: nat, n_k: nat, m: seq<real>, l: seq<real>)
    returns (m': seq<real>, l': seq<real>)
    requires w.Valid() && IsExp(exp) && rows == |w.rows| && t0 + n_k <= w.n
    requires forall r, j :: 0 <= r < rows && 0 <= j < w.n ==> (w.rows[r][j].live <==> Keep(a, q0 + r, j))
    requires scores != oacc && rows <= scores.Length0 && n_k <= scores.Length1
    requires rows <= oacc.Length0 && oacc.Length1 == |w.cols| && |m| == |l| == rows
    requires forall r: nat, tk: nat | r < rows && tk < n_k :: scores[r, tk] * a.scale == w.rows[r][t0 + tk].score
    requires forall r: nat | r < rows :: l[r] == Mass(exp, w.rows[r], m[r], t0)
    requires forall r: nat, d: nat | r < rows && d < |w.cols| :: AccIs(w, exp, oacc[r, d], r, d, m[r], t0)
    modifies scores, oacc
    ensures |m'| == |l'| == rows
    ensures forall r: nat | r < rows :: l'[r] == Mass(exp, w.rows[r], m'[r], t0 + n_k)
    ensures forall r: nat, d: nat | r < rows && d < |w.cols| :: AccIs(w, exp, oacc[r, d], r, d, m'[r], t0)
    ensures forall r: nat, tk: nat | r < rows && tk < n_k :: WeightsAre(w, exp, scores[r, tk], r, t0 + tk, m'[r])
  {
    assert forall r: nat | r < rows :: RawRow(w, scores, a.scale, r, t0, n_k);
    assert forall r: nat | r < rows :: AccRow(w, exp, oacc, r, m[r], t0);
    m', l' := PassRows(w, exp, a, q0, rows, negMax, scores, oacc, t0, n_k, m, l);
    forall r: nat, tk: nat | r < rows && tk < n_k ensures WeightsAre(w, exp, scores[r, tk], r, t0 + tk, m'[r]) {
      assert WeighedRow(w, exp, scores, r, t0, n_k, m'[r]);
    }
    forall r: nat, d: nat | r < rows && d < |w.cols| ensures AccIs(w, exp, oacc[r, d], r, d, m'[r], t0) {
      assert AccRow(w, exp, oacc, r, m'[r], t0);
    }
  }

  // The rows' passes, each lane its own row, in any order.
  method PassRows(ghost w: View, exp: real -> real, a: Launch, q0: nat, rows: nat, negMax: real,
                  scores: array2<real>, oacc: array2<real>, t0: nat, n_k: nat, m: seq<real>, l: seq<real>)
    returns (m': seq<real>, l': seq<real>)
    requires w.Valid() && IsExp(exp) && rows == |w.rows| && t0 + n_k <= w.n
    requires forall r, j :: 0 <= r < rows && 0 <= j < w.n ==> (w.rows[r][j].live <==> Keep(a, q0 + r, j))
    requires scores != oacc && rows <= scores.Length0 && n_k <= scores.Length1
    requires rows <= oacc.Length0 && oacc.Length1 == |w.cols| && |m| == |l| == rows
    requires forall r: nat | r < rows :: RawRow(w, scores, a.scale, r, t0, n_k)
    requires forall r: nat | r < rows :: AccRow(w, exp, oacc, r, m[r], t0)
    requires forall r: nat | r < rows :: l[r] == Mass(exp, w.rows[r], m[r], t0)
    modifies scores, oacc
    ensures |m'| == |l'| == rows
    ensures forall r: nat | r < rows :: l'[r] == Mass(exp, w.rows[r], m'[r], t0 + n_k)
    ensures forall r: nat | r < rows :: WeighedRow(w, exp, scores, r, t0, n_k, m'[r])
    ensures forall r: nat | r < rows :: AccRow(w, exp, oacc, r, m'[r], t0)
  {
    m', l' := m, l;
    var done := seq(rows, _ => 0);
    while exists r :: 0 <= r < rows && done[r] < 1
      invariant |m'| == |l'| == |done| == rows
      invariant forall r: nat | r < rows && done[r] < 1 :: m'[r] == m[r] && l'[r] == l[r]
      invariant forall r: nat | r < rows && done[r] < 1 :: RawRow(w, scores, a.scale, r, t0, n_k)
      invariant forall r: nat | r < rows && done[r] >= 1 :: l'[r] == Mass(exp, w.rows[r], m'[r], t0 + n_k)
      invariant forall r: nat | r < rows && done[r] >= 1 :: WeighedRow(w, exp, scores, r, t0, n_k, m'[r])
      invariant forall r: nat | r < rows :: AccRow(w, exp, oacc, r, m'[r], t0)
      decreases Work(done, 1)
    {
      var r: nat :| r < rows && done[r] < 1;
      assert AccRow(w, exp, oacc, r, m'[r], t0);
      var m_new, l_new := PassRow(w, exp, a, q0 + r, negMax, scores, oacc, r, t0, n_k, m[r], l[r]);
      m', l' := m'[r := m_new], l'[r := l_new];
      WorkDrops(done, r, 1, 1);
      done := done[r := 1];
    }
  }

  // P.V over one 32-wide slice: every row's weights times the staged values, lanes interleaving key by key.
  method AddValues(ghost w: View, exp: real -> real, rows: nat, scores: array2<real>, oacc: array2<real>,
                   vs: array2<real>, ghost m: seq<real>, t0: nat, n_k: nat, d0: nat)
    requires w.Valid() && rows == |w.rows| == |m| && t0 + n_k <= w.n && d0 + D_TILE <= |w.cols|
    requires scores != oacc && vs != oacc && rows <= scores.Length0 && n_k <= scores.Length1
    requires rows <= oacc.Length0 && oacc.Length1 == |w.cols| && vs.Length0 >= n_k && vs.Length1 == D_TILE
    requires forall tk: nat, d: nat | tk < n_k && d < D_TILE :: vs[tk, d] == w.cols[d0 + d][t0 + tk]
    requires forall r: nat, tk: nat | r < rows && tk < n_k :: WeightsAre(w, exp, scores[r, tk], r, t0 + tk, m[r])
    requires forall r: nat, d: nat | r < rows && d < |w.cols| ::
      AccIs(w, exp, oacc[r, d], r, d, m[r], if d < d0 then t0 + n_k else t0)
    modifies oacc
    ensures forall r: nat, d: nat | r < rows && d < |w.cols| ::
      AccIs(w, exp, oacc[r, d], r, d, m[r], if d < d0 + D_TILE then t0 + n_k else t0)
  {
    var pc: seq<nat> := seq(rows, _ => 0);
    while exists lid :: 0 <= lid < rows && pc[lid] < n_k
      invariant |pc| == rows && forall r :: 0 <= r < rows ==> pc[r] <= n_k
      invariant forall r: nat, d: nat | r < rows && d < |w.cols| ::
        AccIs(w, exp, oacc[r, d], r, d, m[r],
              if d < d0 then t0 + n_k else if d < d0 + D_TILE then t0 + pc[r] else t0)
      decreases Work(pc, n_k)
    {
      var lid: nat :| lid < rows && pc[lid] < n_k;
      var tk: nat := pc[lid];
      var p := scores[lid, tk];
      assert WeightsAre(w, exp, p, lid, t0 + tk, m[lid]);
      WorkDrops(pc, lid, tk + 1, n_k);
      AddWeighted(w, exp, oacc, vs, m[lid], lid, p, t0, tk, n_k, d0);
      pc := pc[lid := tk + 1];
    }
  }

  // One weight times one staged value row, added into 32 coordinates of one accumulator row.
  method AddWeighted(ghost w: View, exp: real -> real, oacc: array2<real>, vs: array2<real>, ghost m: real,
                     r: nat, p: real, ghost t0: nat, tk: nat, ghost n_k: nat, d0: nat)
    requires w.Valid() && r < |w.rows| && tk < n_k && t0 + n_k <= w.n && d0 + D_TILE <= |w.cols|
    requires vs != oacc && r < oacc.Length0 && oacc.Length1 == |w.cols| && tk < vs.Length0 && vs.Length1 == D_TILE
    requires forall d: nat | d < D_TILE :: vs[tk, d] == w.cols[d0 + d][t0 + tk]
    requires WeightsAre(w, exp, p, r, t0 + tk, m)
    requires forall d: nat | d0 <= d < d0 + D_TILE :: AccIs(w, exp, oacc[r, d], r, d, m, t0 + tk)
    modifies oacc
    ensures forall d: nat | d0 <= d < d0 + D_TILE :: AccIs(w, exp, oacc[r, d], r, d, m, t0 + tk + 1)
    ensures forall i: nat, d: nat | i < oacc.Length0 && d < |w.cols| && (i != r || !(d0 <= d < d0 + D_TILE)) ::
      oacc[i, d] == old(oacc[i, d])
  {
    for e := 0 to D_TILE
      invariant forall d: nat | d0 <= d < d0 + e :: AccIs(w, exp, oacc[r, d], r, d, m, t0 + tk + 1)
      invariant forall i: nat, d: nat | i < oacc.Length0 && d < |w.cols| && (i != r || !(d0 <= d < d0 + e)) ::
        oacc[i, d] == old(oacc[i, d])
    {
      assert AccIs(w, exp, oacc[r, d0 + e], r, d0 + e, m, t0 + tk);
      oacc[r, d0 + e] := oacc[r, d0 + e] + p * vs[tk, e];
    }
  }

  // Load a 32-wide slice of key (or value) rows [t0, t0 + n_k), strided over the lanes.
  method LoadTile(src: seq<seq<real>>, dst: array2<real>, t0: nat, n_k: nat, d0: nat, tptg: nat)
    requires t0 + n_k <= |src| && tptg > 0 && n_k <= dst.Length0 && dst.Length1 == D_TILE
    requires forall j | 0 <= j < |src| :: d0 + D_TILE <= |src[j]|
    modifies dst
    ensures forall tk: nat, d: nat | tk < n_k && d < D_TILE :: dst[tk, d] == src[t0 + tk][d0 + d]
  {
    StridedStore(dst, n_k, D_TILE, tptg,
                 (tk: nat, d: nat) requires tk < n_k && d < D_TILE => src[t0 + tk][d0 + d]);
  }

  // Scores of one block: zero them, then accumulate Q.K^T slice by slice.
  method BlockScores(g: Tile, scores: array2<real>, ks: array2<real>, br: nat, bc: nat, t0: nat, n_k: nat, tptg: nat)
    requires g.Valid() && g.a.headDim % D_TILE == 0
    requires |g.q| <= br && n_k <= bc && 0 < bc && tptg > 0 && t0 + n_k <= |g.k|
    requires scores != ks && scores.Length0 == br && scores.Length1 == bc && ks.Length0 == bc && ks.Length1 == D_TILE
    modifies scores, ks
    ensures forall r: nat, tk: nat | r < |g.q| && tk < n_k :: ScoreIs(g, scores[r, tk], r, t0 + tk, g.a.headDim)
  {
    StridedStore(scores, br, bc, tptg, (_, _) => 0.0);
    var d0 := 0;
    while d0 < g.a.headDim
      invariant d0 % D_TILE == 0 && d0 <= g.a.headDim
      invariant forall r: nat, tk: nat | r < |g.q| && tk < n_k :: ScoreIs(g, scores[r, tk], r, t0 + tk, d0)
    {
      LoadTile(g.k, ks, t0, n_k, d0, tptg);
      AddScores(g, scores, ks, t0, n_k, d0);
      d0 := d0 + D_TILE;
    }
  }

  // P.V of one block, slice by slice.
  method BlockValues(g: Tile, ghost w: View, exp: real -> real, scores: array2<real>,
                     oacc: array2<real>, vs: array2<real>, ghost m: seq<real>, t0: nat, n_k: nat, tptg: nat)
    requires g.Valid() && g.a.headDim % D_TILE == 0 && Sees(g, w) && |g.q| == |m|
    requires tptg > 0 && t0 + n_k <= |g.k| && scores != oacc && vs != oacc && vs != scores
    requires |g.q| <= scores.Length0 && n_k <= scores.Length1 && |g.q| <= oacc.Length0 && oacc.Length1 == g.a.headDim
    requires n_k <= vs.Length0 && vs.Length1 == D_TILE
    requires forall r: nat, tk: nat | r < |g.q| && tk < n_k :: WeightsAre(w, exp, scores[r, tk], r, t0 + tk, m[r])
    requires forall r: nat, d: nat | r < |g.q| && d < g.a.headDim :: AccIs(w, exp, oacc[r, d], r, d, m[r], t0)
    modifies oacc, vs
    ensures forall r: nat, d: nat | r < |g.q| && d < g.a.headDim :: AccIs(w, exp, oacc[r, d], r, d, m[r], t0 + n_k)
  {
    var d0 := 0;
    while d0 < g.a.headDim
      invariant d0 % D_TILE == 0 && d0 <= g.a.headDim
      invariant forall r: nat, d: nat | r < |g.q| && d < g.a.headDim ::
        AccIs(w, exp, oacc[r, d], r, d, m[r], if d < d0 then t0 + n_k else t0)
    {
      LoadTile(g.v, vs, t0, n_k, d0, tptg);
      AddValues(w, exp, |g.q|, scores, oacc, vs, m, t0, n_k, d0);
      d0 := d0 + D_TILE;
    }
  }

  // w is what the tile's query rows see.
  ghost predicate Sees(g: Tile, w: View)
    requires g.Valid()
  {
    w.Valid() && w.n == |g.k| && |w.rows| == |g.q| && |w.cols| == g.a.headDim
    && (forall r: nat | r < |g.q| :: w.rows[r] == g.Row(r))
    && forall d: nat | d < g.a.headDim :: w.cols[d] == g.Col(d)
  }

  // First key of block kb, or the key count past the last block.
  function BlockStart(kb: nat, bc: nat, tkv: nat): nat {
    if kb * bc < tkv then kb * bc else tkv
  }

  // The host-side block count covers exactly the live keys.
  lemma {:induction false} BlockBounds(kb: nat, bc: nat, tkv: nat)
    requires bc > 0
    ensures BlockStart(0, bc, tkv) == 0
    ensures var n := tkv / bc + if tkv % bc != 0 then 1 else 0;
            (kb < n <==> BlockStart(kb, bc, tkv) < tkv)
    ensures var t := BlockStart(kb, bc, tkv);
            BlockStart(kb + 1, bc, tkv) == t + if bc < tkv - t then bc else tkv - t
  {
    BlockCount(kb, bc, tkv, tkv / bc, tkv % bc, kb * bc);
    NextBlock(kb, bc, kb * bc);
  }

  lemma {:induction false} NextBlock(kb: nat, bc: nat, at: nat)
    requires at == kb * bc
    ensures (kb + 1) * bc == at + bc
  {
  }

  lemma {:induction false} BlockCount(kb: nat, bc: nat, tkv: nat, q: nat, r: nat, at: nat)
    requires bc > 0 && q == tkv / bc && r == tkv % bc && at == kb * bc
    ensures kb < q + (if r != 0 then 1 else 0) <==> at < tkv
  {
    assert tkv == q * bc + r;
    if kb <= q {
      MulMono(kb, q, bc);
      if kb < q { NextBlock(kb, bc, at); MulMono(kb + 1, q, bc); }
    } else {
      MulMono(q + 1, kb, bc);
      NextBlock(q, bc, q * bc);
    }
  }

  // The state between blocks, after the first n keys: each row's sum and accumulator hold exactly those.
  ghost predicate Streamed(w: View, exp: real -> real, oacc: array2<real>, m: seq<real>, l: seq<real>, n: nat)
    requires w.Valid() && |w.rows| == |m| == |l| && |w.rows| <= oacc.Length0 && |w.cols| == oacc.Length1 && n <= w.n
    reads oacc
  {
    (forall r: nat | r < |w.rows| :: l[r] == Mass(exp, w.rows[r], m[r], n)) &&
    forall r: nat, d: nat | r < |w.rows| && d < |w.cols| :: AccIs(w, exp, oacc[r, d], r, d, m[r], n)
  }

  // A skipped block changes nothing any row counts.
  lemma {:induction false} SkipKeepsStreamed(w: View, exp: real -> real, oacc: array2<real>, m: seq<real>, l: seq<real>, n: nat, n': nat)
    requires w.Valid() && |w.rows| == |m| == |l| && |w.rows| <= oacc.Length0 && |w.cols| == oacc.Length1
    requires n <= n' <= w.n && Streamed(w, exp, oacc, m, l, n)
    requires forall r, j :: 0 <= r < |w.rows| && n <= j < n' ==> !w.rows[r][j].live
    ensures Streamed(w, exp, oacc, m, l, n')
  {
    forall r: nat | r < |w.rows| ensures l[r] == Mass(exp, w.rows[r], m[r], n') {
      DeadSpan(exp, w.rows[r], seq(w.n, _ => 0.0), m[r], n, n');
    }
    forall r: nat, d: nat | r < |w.rows| && d < |w.cols| ensures AccIs(w, exp, oacc[r, d], r, d, m[r], n') {
      assert AccIs(w, exp, oacc[r, d], r, d, m[r], n);
      DeadSpan(exp, w.rows[r], w.cols[d], m[r], n, n');
    }
  }

  // One turn of the loop: skip the block or run it.
  method StreamBlock(g: Tile, live_rows: nat, ghost w: View, exp: real -> real, negMax: real, oacc: array2<real>,
                     br: nat, bc: nat, t0: nat, n_k: nat, tptg: nat, m: seq<real>, l: seq<real>)
    returns (m': seq<real>, l': seq<real>)
    requires g.Valid() && g.a.headDim % D_TILE == 0 && IsExp(exp) && Sees(g, w)
    requires 0 < live_rows && |g.q| <= live_rows && |g.q| <= br && 0 < n_k <= bc && tptg > 0 && t0 + n_k <= |g.k|
    requires oacc.Length0 == br && oacc.Length1 == g.a.headDim && |m| == |l| == |g.q| && Streamed(w, exp, oacc, m, l, t0)
    modifies oacc
    ensures |m'| == |l'| == |g.q| && Streamed(w, exp, oacc, m', l', t0 + n_k)
  {
    m', l' := m, l;
    if Skips(g.a, g.q0, live_rows, t0, n_k) {
      SkipBlock(g, live_rows, w, exp, oacc, m, l, t0, n_k);
    } else {
      m', l' := RunBlock(g, w, exp, negMax, oacc, br, bc, t0, n_k, tptg, m, l);
    }
  }

  // The block loop, phase after phase. AttnLanes takes the phases apart into the lanes' own steps.
  method StreamBlocks(g: Tile, live_rows: nat, ghost w: View, exp: real -> real, negMax: real, oacc: array2<real>,
                      br: nat, bc: nat, tptg: nat)
    returns (m: seq<real>, l: seq<real>)
    requires g.Valid() && g.a.headDim % D_TILE == 0 && IsExp(exp) && Sees(g, w)
    requires 0 < live_rows && |g.q| <= live_rows && |g.q| <= br && 0 < bc && tptg > 0
    requires oacc.Length0 == br && oacc.Length1 == g.a.headDim
    requires forall r: nat, d: nat | r < |g.q| && d < g.a.headDim :: oacc[r, d] == 0.0
    modifies oacc
    ensures |m| == |l| == |g.q| && Streamed(w, exp, oacc, m, l, |g.k|)
  {
    var tkv := |g.k|;
    m, l := seq(|g.q|, _ => negMax), seq(|g.q|, _ => 0.0);
    NothingStreamed(w, exp, oacc, m, l);
    var n_k_blocks := tkv / bc + if tkv % bc != 0 then 1 else 0;
    var t_k0 := 0;
    for kb := 0 to n_k_blocks
      invariant |m| == |l| == |g.q|
      invariant t_k0 == BlockStart(kb, bc, tkv)
      invariant Streamed(w, exp, oacc, m, l, t_k0)
    {
      var n_k := if bc < tkv - t_k0 then bc else tkv - t_k0;
      BlockBounds(kb, bc, tkv);
      m, l := StreamBlock(g, live_rows, w, exp, negMax, oacc, br, bc, t_k0, n_k, tptg, m, l);
      t_k0 := t_k0 + n_k;
    }
    BlockBounds(n_k_blocks, bc, tkv);
  }

  lemma {:induction false} SkipBlock(g: Tile, live_rows: nat, w: View, exp: real -> real, oacc: array2<real>, m: seq<real>, l: seq<real>,
                  t0: nat, n: nat)
    requires g.Valid() && Sees(g, w) && 0 < live_rows && |g.q| <= live_rows && n > 0 && t0 + n <= |g.k|
    requires |w.rows| == |m| == |l| && |w.rows| <= oacc.Length0 && |w.cols| == oacc.Length1
    requires Skips(g.a, g.q0, live_rows, t0, n) && Streamed(w, exp, oacc, m, l, t0)
    ensures Streamed(w, exp, oacc, m, l, t0 + n)
  {
    forall r, j | 0 <= r < |w.rows| && t0 <= j < t0 + n ensures !w.rows[r][j].live {
      SkippedBlockIsDead(g.a, g.q0, live_rows, t0, n, g.q0 + r, j);
    }
    SkipKeepsStreamed(w, exp, oacc, m, l, t0, t0 + n);
  }

  lemma {:induction false} NothingStreamed(w: View, exp: real -> real, oacc: array2<real>, m: seq<real>, l: seq<real>)
    requires w.Valid() && |w.rows| == |m| == |l| && |w.rows| <= oacc.Length0 && |w.cols| == oacc.Length1
    requires forall r: nat | r < |l| :: l[r] == 0.0
    requires forall r: nat, d: nat | r < |w.rows| && d < |w.cols| :: oacc[r, d] == 0.0
    ensures Streamed(w, exp, oacc, m, l, 0)
  {
  }

  // BlockScores, against the rows' own scores.
  method ScoreBlock(g: Tile, ghost w: View, scores: array2<real>, ks: array2<real>, br: nat, bc: nat, t0: nat, n_k: nat, tptg: nat)
    requires g.Valid() && g.a.headDim % D_TILE == 0 && Sees(g, w)
    requires |g.q| <= br && n_k <= bc && 0 < bc && tptg > 0 && t0 + n_k <= |g.k|
    requires scores != ks && scores.Length0 == br && scores.Length1 == bc && ks.Length0 == bc && ks.Length1 == D_TILE
    modifies scores, ks
    ensures forall r: nat, tk: nat | r < |g.q| && tk < n_k :: scores[r, tk] * g.a.scale == w.rows[r][t0 + tk].score
  {
    BlockScores(g, scores, ks, br, bc, t0, n_k, tptg);
    forall r: nat, tk: nat | r < |g.q| && tk < n_k
      ensures scores[r, tk] * g.a.scale == w.rows[r][t0 + tk].score
    {
      assert ScoreIs(g, scores[r, tk], r, t0 + tk, g.a.headDim);
    }
  }

  // One block that is not skipped. Its threadgroup tiles start with whatever the memory held.
  method RunBlock(g: Tile, ghost w: View, exp: real -> real, negMax: real, oacc: array2<real>,
                  br: nat, bc: nat, t0: nat, n_k: nat, tptg: nat, m: seq<real>, l: seq<real>)
    returns (m': seq<real>, l': seq<real>)
    requires g.Valid() && g.a.headDim % D_TILE == 0 && IsExp(exp) && Sees(g, w)
    requires |g.q| <= br && 0 < n_k <= bc && tptg > 0 && t0 + n_k <= |g.k| && |m| == |l| == |g.q|
    requires oacc.Length0 == br && oacc.Length1 == g.a.headDim
    requires Streamed(w, exp, oacc, m, l, t0)
    modifies oacc
    ensures |m'| == |l'| == |g.q| && Streamed(w, exp, oacc, m', l', t0 + n_k)
  {
    var ks, vs, scores := new real[bc, D_TILE], new real[bc, D_TILE], new real[br, bc];
    ScoreBlock(g, w, scores, ks, br, bc, t0, n_k, tptg);
    m', l' := SoftmaxPass(w, exp, g.a, g.q0, |m|, negMax, scores, oacc, t0, n_k, m, l);
    BlockValues(g, w, exp, scores, oacc, vs, m', t0, n_k, tptg);
  }

  // ---------- output ----------

  ghost predicate InRange(a: Launch, b: nat, h: nat, t: nat, d: nat) {
    b < a.batch && h < a.heads && t < a.tq && d < a.headDim
  }

  function OutSize(a: Launch): nat { a.batch * a.tq * a.heads * a.headDim }

  // Output element (b, t, h, d).
  ghost function Out(a: Launch, o: array<real>, b: nat, h: nat, t: nat, d: nat): real
    requires o.Length == OutSize(a) && InRange(a, b, h, t, d)
    reads o
  {
    RowAddrFits(b, t, h, a.batch, a.tq, a.heads, a.headDim);
    o[a.QElem(b, h, t, d)]
  }

  // Query row (b, h, t) belongs to threadgroup (q_block, bh) and has a lane there.
  ghost predicate Owns(a: Launch, q_block: nat, bh: nat, br: nat, tptg: nat, b: nat, h: nat, t: nat)
    requires a.heads > 0
  {
    b == bh / a.heads && h == bh % a.heads && q_block * br <= t < q_block * br + if br < tptg then br else tptg
  }

  // Store one row; every other output element keeps its value.
  method StoreRow(a: Launch, o: array<real>, b: nat, h: nat, t: nat, vals: seq<real>)
    requires o.Length == OutSize(a) && b < a.batch && h < a.heads && t < a.tq && |vals| == a.headDim
    modifies o
    ensures forall b': nat, h': nat, t': nat, d: nat | InRange(a, b', h', t', d) ::
      Out(a, o, b', h', t', d) == if b' == b && h' == h && t' == t then vals[d] else old(Out(a, o, b', h', t', d))
  {
    RowAddrFits(b, t, h, a.batch, a.tq, a.heads, a.headDim);
    var base := a.QRow(b, h, t);
    for d := 0 to a.headDim
      invariant forall c | 0 <= c < o.Length ::
        o[c] == if base <= c < base + d then vals[c - base] else old(o[c])
    {
      o[base + d] := vals[d];
    }
    forall b': nat, h': nat, t': nat, d: nat | InRange(a, b', h', t', d)
      ensures Out(a, o, b', h', t', d) == if b' == b && h' == h && t' == t then vals[d] else old(Out(a, o, b', h', t', d))
    {
      RowAddrFits(b', t', h', a.batch, a.tq, a.heads, a.headDim);
      var c := a.QElem(b', h', t', d);
      if base <= c < base + a.headDim {
        RowAddrInjective(b', t', h', d, b, t, h, c - base, a.tq, a.heads, a.headDim);
      }
    }
  }

  // The closing loop: each lane stores its row, in any order.
  method StoreRows(a: Launch, o: array<real>, b: nat, h: nat, q0: nat, vals: seq<seq<real>>)
    requires o.Length == OutSize(a) && b < a.batch && h < a.heads && q0 + |vals| <= a.tq && AllDim(vals, a.headDim)
    modifies o
    ensures forall b': nat, h': nat, t: nat, d: nat | InRange(a, b', h', t, d) ::
      Out(a, o, b', h', t, d) ==
        if b' == b && h' == h && q0 <= t < q0 + |vals| then vals[t - q0][d] else old(Out(a, o, b', h', t, d))
  {
    var done := seq(|vals|, _ => 0);
    while exists r :: 0 <= r < |vals| && done[r] < 1
      invariant |done| == |vals|
      invariant forall b': nat, h': nat, t: nat, d: nat | InRange(a, b', h', t, d) ::
        Out(a, o, b', h', t, d) ==
          if b' == b && h' == h && q0 <= t < q0 + |vals| && done[t - q0] >= 1 then vals[t - q0][d]
          else old(Out(a, o, b', h', t, d))
      decreases Work(done, 1)
    {
      var r: nat :| r < |vals| && done[r] < 1;
      StoreRow(a, o, b, h, q0 + r, vals[r]);
      WorkDrops(done, r, 1, 1);
      done := done[r := 1];
    }
  }

  // The finished row values of a tile, as the lanes store them.
  method FinishRows(ghost w: View, exp: real -> real, store: real -> real, oacc: array2<real>,
                    ghost m: seq<real>, l: seq<real>)
    returns (vals: seq<seq<real>>)
    requires w.Valid() && IsExp(exp) && |m| == |l| == |w.rows|
    requires |w.rows| <= oacc.Length0 && oacc.Length1 == |w.cols| && Streamed(w, exp, oacc, m, l, w.n)
    ensures |vals| == |w.rows| && AllDim(vals, |w.cols|)
    ensures forall r: nat, d: nat | r < |w.rows| && d < |w.cols| ::
      vals[r][d] == store(Attend(exp, w.rows[r], w.cols[d]))
  {
    vals := [];
    while |vals| < |l|
      invariant |vals| <= |l| && AllDim(vals, |w.cols|)
      invariant forall r: nat, d: nat | r < |vals| && d < |w.cols| ::
        vals[r][d] == store(Attend(exp, w.rows[r], w.cols[d]))
    {
      var out := FinishRow(w, exp, store, oacc, |vals|, m[|vals|], l[|vals|]);
      vals := vals + [out];
    }
  }

  method FinishRow(ghost w: View, exp: real -> real, store: real -> real, oacc: array2<real>,
                   r: nat, ghost m_i: real, l_i: real)
    returns (out: seq<real>)
    requires w.Valid() && IsExp(exp) && r < |w.rows|
    requires r < oacc.Length0 && oacc.Length1 == |w.cols| && l_i == Mass(exp, w.rows[r], m_i, w.n)
    requires forall d: nat | d < |w.cols| :: AccIs(w, exp, oacc[r, d], r, d, m_i, w.n)
    ensures |out| == |w.cols|
    ensures forall d: nat | d < |w.cols| :: out[d] == store(Attend(exp, w.rows[r], w.cols[d]))
  {
    var inv_l := if l_i > 0.0 then 1.0 / l_i else 0.0;
    out := [];
    while |out| < oacc.Length1
      invariant |out| <= |w.cols|
      invariant forall d: nat | d < |out| :: out[d] == store(Attend(exp, w.rows[r], w.cols[d]))
    {
      var d := |out|;
      assert AccIs(w, exp, oacc[r, d], r, d, m_i, w.n);
      NormaliseAnyShift(exp, w.rows[r], w.cols[d], m_i);
      assert |w.rows[r]| == w.n;
      assert oacc[r, d] * inv_l == Attend(exp, w.rows[r], w.cols[d]);
      out := out + [store(oacc[r, d] * inv_l)];
    }
  }

  // The rows of one tile: zero the accumulators, stream the blocks, normalise.
  method TileRows(g: Tile, live_rows: nat, exp: real -> real, negMax: real, store: real -> real,
                  br: nat, bc: nat, tptg: nat)
    returns (vals: seq<seq<real>>)
    requires g.Valid() && g.a.headDim % D_TILE == 0 && IsExp(exp)
    requires 0 < live_rows && |g.q| <= live_rows && |g.q| <= br && 0 < bc && tptg > 0
    ensures |vals| == |g.q| && AllDim(vals, g.a.headDim)
    ensures forall r: nat, d: nat | r < |g.q| && d < g.a.headDim ::
      vals[r][d] == store(Reference(exp, g.Row(r), g.Col(d)))
  {
    var oacc := new real[br, g.a.headDim]((_, _) => 0.0);
    ghost var w := View(seq(|g.q|, r requires 0 <= r < |g.q| => g.Row(r)),
                        seq(g.a.headDim, d requires 0 <= d < g.a.headDim => g.Col(d)), |g.k|);
    var m, l := StreamBlocks(g, live_rows, w, exp, negMax, oacc, br, bc, tptg);
    vals := FinishRows(w, exp, store, oacc, m, l);
    forall r: nat, d: nat | r < |g.q| && d < g.a.headDim
      ensures vals[r][d] == store(Reference(exp, g.Row(r), g.Col(d)))
    {
      ReferenceIsAttend(exp, g.Row(r), g.Col(d));
    }
  }

  // The dispatch's inputs with the live key count clamped, as the kernel clamps it.
  function Clamped(a: Launch, q: seq<real>, k: seq<real>, v: seq<real>, tkv: nat): Problem {
    Problem(a, q, k, v, if tkv < a.kvCapacity then tkv else a.kvCapacity)
  }

  // The values of a tile's rows; an empty history gives zeros without streaming anything.
  method TileValues(p: Problem, b: nat, h: nat, t_q0: nat, live_rows: nat, rows: nat, exp: real -> real, negMax: real,
                    store: real -> real, br: nat, bc: nat, tptg: nat)
    returns (vals: seq<seq<real>>)
    requires p.Valid() && p.a.headDim % D_TILE == 0 && IsExp(exp) && b < p.a.batch && h < p.a.heads
    requires t_q0 + live_rows <= p.a.tq && 0 < live_rows && rows <= live_rows && rows <= br && 0 < bc && tptg > 0
    ensures |vals| == rows && AllDim(vals, p.a.headDim)
    ensures forall r: nat, d: nat | r < rows && d < p.a.headDim ::
      vals[r][d] == store(p.Plain(exp, b, h, t_q0 + r, d))
  {
    if p.tkv == 0 {
      return seq(rows, _ => seq(p.a.headDim, _ => store(0.0)));
    }
    vals := TileRows(TileOf(p, b, h, t_q0, rows), live_rows, exp, negMax, store, br, bc, tptg);
    forall r: nat, d: nat | r < rows && d < p.a.headDim
      ensures vals[r][d] == store(p.Plain(exp, b, h, t_q0 + r, d))
    {
      TileIsPlain(p, b, h, t_q0, rows, exp, r, d);
    }
  }

  // The vectors a threadgroup reads: its query rows and its head's keys and values.
  function TileOf(p: Problem, b: nat, h: nat, t_q0: nat, rows: nat): (g: Tile)
    requires p.Valid() && b < p.a.batch && h < p.a.heads && t_q0 + rows <= p.a.tq
    ensures g.Valid() && |g.q| == rows && g.a == p.a
  {
    Tile(p.a, t_q0, p.QVecs(b, h, t_q0, rows), p.KvVecs(p.k, b, h), p.KvVecs(p.v, b, h))
  }

  lemma {:induction false} TileIsPlain(p: Problem, b: nat, h: nat, t_q0: nat, rows: nat, exp: real -> real, r: nat, d: nat)
    requires p.Valid() && b < p.a.batch && h < p.a.heads && t_q0 + rows <= p.a.tq && r < rows && d < p.a.headDim
    ensures var g := TileOf(p, b, h, t_q0, rows);
            Reference(exp, g.Row(r), g.Col(d)) == p.Plain(exp, b, h, t_q0 + r, d)
  {
    var g := TileOf(p, b, h, t_q0, rows);
    assert g.q[r] == p.QVec(b, h, t_q0 + r);
  }

  // One threadgroup of the kernel: its rows become the plain masked attention, every other output element
  // keeps its value. `store` is the output conversion (identity for f32).
  method FlashAttnFa2Tiled(a: Launch, q: seq<real>, k: seq<real>, v: seq<real>, o: array<real>, tkvPtr: nat,
                           exp: real -> real, negMax: real, store: real -> real,
                           q_block: nat, bh: nat, br: nat, bc: nat, tptg: nat)
    requires Clamped(a, q, k, v, tkvPtr).Valid() && a.headDim % D_TILE == 0 && IsExp(exp)
    requires o.Length == OutSize(a) && bh < a.batch * a.heads && 0 < bc && 0 < tptg && 0 < br
    modifies o
    ensures forall b: nat, h: nat, t: nat, d: nat | InRange(a, b, h, t, d) ::
      Out(a, o, b, h, t, d) ==
        if Owns(a, q_block, bh, br, tptg, b, h, t) then store(Clamped(a, q, k, v, tkvPtr).Plain(exp, b, h, t, d))
        else old(Out(a, o, b, h, t, d))
  {
    var p := Clamped(a, q, k, v, tkvPtr);
    SplitBatchHead(bh, a.heads, a.batch);
    var b, h := bh / a.heads, bh % a.heads;
    var t_q0 := q_block * br;
    if t_q0 >= a.tq {
      return;
    }
    var live_rows := if br < a.tq - t_q0 then br else a.tq - t_q0;
    var rows := if live_rows < tptg then live_rows else tptg;
    var vals := TileValues(p, b, h, t_q0, live_rows, rows, exp, negMax, store, br, bc, tptg);
    StoreRows(a, o, b, h, t_q0, vals);
  }

  // A whole dispatch, its threadgroups in any order (repeats included): once every grid point has run on at
  // least BR lanes, every output element is the plain masked attention.
  method Dispatch(a: Launch, q: seq<real>, k: seq<real>, v: seq<real>, o: array<real>, tkvPtr: nat,
                  exp: real -> real, negMax: real, store: real -> real,
                  order: seq<(nat, nat)>, br: nat, bc: nat, tptg: nat)
    requires Clamped(a, q, k, v, tkvPtr).Valid() && a.headDim % D_TILE == 0 && IsExp(exp)
    requires o.Length == OutSize(a) && 0 < br <= tptg && 0 < bc
    requires forall g :: g in order ==> g.1 < a.batch * a.heads
    requires forall x: nat, bh: nat :: x * br < a.tq && bh < a.batch * a.heads ==> (x, bh) in order
    modifies o
    ensures forall b: nat, h: nat, t: nat, d: nat | InRange(a, b, h, t, d) ::
      Out(a, o, b, h, t, d) == store(Clamped(a, q, k, v, tkvPtr).Plain(exp, b, h, t, d))
  {
    ghost var p := Clamped(a, q, k, v, tkvPtr);
    for i := 0 to |order|
      invariant forall b: nat, h: nat, t: nat, d: nat | InRange(a, b, h, t, d) && Ran(a, order[..i], br, tptg, b, h, t) ::
        Out(a, o, b, h, t, d) == store(p.Plain(exp, b, h, t, d))
    {
      FlashAttnFa2Tiled(a, q, k, v, o, tkvPtr, exp, negMax, store, order[i].0, order[i].1, br, bc, tptg);
      forall b: nat, h: nat, t: nat, d: nat | InRange(a, b, h, t, d) && Ran(a, order[..i + 1], br, tptg, b, h, t)
        ensures Out(a, o, b, h, t, d) == store(p.Plain(exp, b, h, t, d))
      {
        RanOrOwns(a, order, i, br, tptg, b, h, t);
      }
    }
    assert order[..|order|] == order;
    forall b: nat, h: nat, t: nat, d: nat | InRange(a, b, h, t, d)
      ensures Ran(a, order, br, tptg, b, h, t)
    {
      GridOwner(a, br, tptg, b, h, t);
      assert (t / br, b * a.heads + h) in order;
    }
  }

  ghost predicate Ran(a: Launch, order: seq<(nat, nat)>, br: nat, tptg: nat, b: nat, h: nat, t: nat)
    requires a.heads > 0
  {
    exists g :: g in order && Owns(a, g.0, g.1, br, tptg, b, h, t)
  }

  lemma {:induction false} RanOrOwns(a: Launch, order: seq<(nat, nat)>, i: nat, br: nat, tptg: nat, b: nat, h: nat, t: nat)
    requires a.heads > 0 && i < |order| && Ran(a, order[..i + 1], br, tptg, b, h, t)
    ensures Ran(a, order[..i], br, tptg, b, h, t) || Owns(a, order[i].0, order[i].1, br, tptg, b, h, t)
  {
    assert order[..i + 1] == order[..i] + [order[i]];
  }

  // The grid point that owns row (b, h, t).
  lemma {:induction false} GridOwner(a: Launch, br: nat, tptg: nat, b: nat, h: nat, t: nat)
    requires a.heads > 0 && 0 < br <= tptg && b < a.batch && h < a.heads && t < a.tq
    ensures b * a.heads + h < a.batch * a.heads && (t / br) * br < a.tq
    ensures Owns(a, t / br, b * a.heads + h, br, tptg, b, h, t)
  {
    CellFits(a.batch, a.heads, b, h);
    ModUnique(b * a.heads + h, b, h, a.heads);
    assert t == (t / br) * br + t % br;
  }
}
