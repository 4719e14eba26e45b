// The attention results over the elements of the flat buffers: which of them each output element is made of.
module AttnElements {
  import opened Common
  import opened OnlineSoftmax
  import opened Layout
  import opened AttnMask
  import opened F = AttnFa2
  import T = AttnTiled
  import opened AttnTiledGrid

  // x[xa] * y[ya] + ... + x[xa + n - 1] * y[ya + n - 1]
  ghost function FlatDot(x: seq<real>, xa: nat, y: seq<real>, ya: nat, n: nat): real
    requires xa + n <= |x| && ya + n <= |y|
  {
    if n == 0 then 0.0 else FlatDot(x, xa, y, ya, n - 1) + x[xa + n - 1] * y[ya + n - 1]
  }

  lemma {:induction false} SliceDot(x: seq<real>, xa: nat, y: seq<real>, ya: nat, n: nat, m: nat)
    requires m <= n && xa + n <= |x| && ya + n <= |y|
    ensures Dot(x[xa..xa + n], y[ya..ya + n], m) == FlatDot(x, xa, y, ya, m)
  {
    if m > 0 {
      SliceDot(x, xa, y, ya, n, m - 1);
      assert x[xa..xa + n][m - 1] == x[xa + m - 1] && y[ya..ya + n][m - 1] == y[ya + m - 1];
    }
  }

  // First element of row (b, t, head) of a row-major [B, T, heads, D] tensor.
  function RowStart(b: nat, t: nat, head: nat, tLen: nat, heads: nat, dim: nat): nat { ((b * tLen + t) * heads + head) * dim }

  lemma {:induction false} RowStartIs(b: nat, t: nat, head: nat, bLen: nat, tLen: nat, heads: nat, dim: nat)
    requires b < bLen && t < tLen && head < heads
    ensures RowAddr(b, t, head, tLen, heads, dim) == RowStart(b, t, head, tLen, heads, dim)
    ensures RowStart(b, t, head, tLen, heads, dim) + dim <= bLen * tLen * heads * dim
  {
    RowAddrIsRowMajor(b, t, head, tLen, heads, dim);
    RowAddrFits(b, t, head, bLen, tLen, heads, dim);
  }

  ghost predicate Sized(a: Launch, q: seq<real>, k: seq<real>, v: seq<real>) {
    a.Valid() && |q| == a.batch * a.tq * a.heads * a.headDim
    && |k| == |v| == a.batch * a.kvCapacity * a.headsKv * a.headDim
  }

  // The first element of a query or output row, and of the key and the value at position j, where it lies in its buffer.
  ghost function QAt(a: Launch, q: seq<real>, k: seq<real>, v: seq<real>, b: nat, h: nat, t: nat): (at: nat)
    requires Sized(a, q, k, v) && b < a.batch && h < a.heads && t < a.tq
    ensures at + a.headDim <= |q| && at == a.QRow(b, h, t)
  {
    RowStartIs(b, t, h, a.batch, a.tq, a.heads, a.headDim);
    RowStart(b, t, h, a.tq, a.heads, a.headDim)
  }

  ghost function KvAt(a: Launch, q: seq<real>, k: seq<real>, v: seq<real>, b: nat, kv: nat, j: nat): (at: nat)
    requires Sized(a, q, k, v) && b < a.batch && kv < a.headsKv && j < a.kvCapacity
    ensures at + a.headDim <= |k| && at == RowAddr(b, j, kv, a.kvCapacity, a.headsKv, a.headDim)
  {
    RowStartIs(b, j, kv, a.batch, a.kvCapacity, a.headsKv, a.headDim);
    RowStart(b, j, kv, a.kvCapacity, a.headsKv, a.headDim)
  }

  // The scaled score of row (b, h, t) against position j of key/value head kv, and coordinate d of the value there.
  ghost function ScoreAt(a: Launch, q: seq<real>, k: seq<real>, v: seq<real>, b: nat, kv: nat, h: nat, t: nat, j: nat): real
    requires Sized(a, q, k, v) && b < a.batch && kv < a.headsKv && h < a.heads && t < a.tq && j < a.kvCapacity
  {
    FlatDot(q, QAt(a, q, k, v, b, h, t), k, KvAt(a, q, k, v, b, kv, j), a.headDim) * a.scale
  }

  ghost function ValueAt(a: Launch, q: seq<real>, k: seq<real>, v: seq<real>, b: nat, kv: nat, j: nat, d: nat): real
    requires Sized(a, q, k, v) && b < a.batch && kv < a.headsKv && j < a.kvCapacity && d < a.headDim
  {
    v[KvAt(a, q, k, v, b, kv, j) + d]
  }

  // Main: what a query head that kv serves reads at position j is element for element key/value head kv's.
  lemma {:induction false} KvElement(p: Problem, src: seq<real>, b: nat, kv: nat, h: nat, j: nat, d: nat)
    requires p.Valid() && |src| == |p.k| && b < p.a.batch && Serves(kv, h, p.a.heads, p.a.headsKv) && j < p.tkv && d < p.a.headDim
    ensures h < p.a.heads && RowAddr(b, j, kv, p.a.kvCapacity, p.a.headsKv, p.a.headDim) + d < |src|
    ensures p.KvVecs(src, b, h)[j][d] == src[RowAddr(b, j, kv, p.a.kvCapacity, p.a.headsKv, p.a.headDim) + d]
  {
    HeadKvOf(kv, h, p.a.heads, p.a.headsKv);
    KvSlice(p, src, b, kv, h, j);
    AttnTiledGrid.SliceAt(src, RowAddr(b, j, kv, p.a.kvCapacity, p.a.headsKv, p.a.headDim), p.a.headDim, d);
  }

  lemma {:induction false} KvSlice(p: Problem, src: seq<real>, b: nat, kv: nat, h: nat, j: nat)
    requires p.Valid() && |src| == |p.k| && b < p.a.batch && h < p.a.heads && HeadKv(h, p.a.heads, p.a.headsKv) == kv && j < p.tkv
    ensures var at := RowAddr(b, j, kv, p.a.kvCapacity, p.a.headsKv, p.a.headDim);
            at + p.a.headDim <= |src| && p.KvVecs(src, b, h)[j] == src[at..at + p.a.headDim]
  {
    p.KvInBounds(b, h, j);
    assert p.KvVecs(src, b, h)[j] == p.KvVec(src, b, h, j);
  }

  lemma {:induction false} QSlice(p: Problem, b: nat, h: nat, t: nat)
    requires p.Valid() && b < p.a.batch && h < p.a.heads && t < p.a.tq
    ensures Sized(p.a, p.q, p.k, p.v)
    ensures var at := QAt(p.a, p.q, p.k, p.v, b, h, t); p.QVec(b, h, t) == p.q[at..at + p.a.headDim]
  {
  }

  lemma {:induction false} ScoreElement(p: Problem, b: nat, kv: nat, h: nat, t: nat, j: nat)
    requires p.Valid() && b < p.a.batch && Serves(kv, h, p.a.heads, p.a.headsKv) && t < p.a.tq && j < p.tkv
    ensures h < p.a.heads && Sized(p.a, p.q, p.k, p.v)
    ensures Dot(p.QVec(b, h, t), p.KvVecs(p.k, b, h)[j], p.a.headDim) * p.a.scale == ScoreAt(p.a, p.q, p.k, p.v, b, kv, h, t, j)
  {
    HeadKvOf(kv, h, p.a.heads, p.a.headsKv);
    KvSlice(p, p.k, b, kv, h, j);
    QSlice(p, b, h, t);
    SliceDot(p.q, QAt(p.a, p.q, p.k, p.v, b, h, t), p.k, KvAt(p.a, p.q, p.k, p.v, b, kv, j), p.a.headDim, p.a.headDim);
  }

  // Main: the plain attention the kernels are proved equal to is the script's softmax over exactly these elements, at
  // the positions below the clamped live length.
  lemma {:induction false} PlainOfElements(a: Launch, q: seq<real>, k: seq<real>, v: seq<real>, tkvPtr: nat, exp: real -> real,
                                           b: nat, kv: nat, h: nat, t: nat, d: nat, row: seq<Key>, col: seq<real>)
    requires Sized(a, q, k, v) && b < a.batch && Serves(kv, h, a.heads, a.headsKv) && h < a.heads && t < a.tq && d < a.headDim
    requires |row| == |col| == Min(tkvPtr, a.kvCapacity)
    requires forall j: nat :: j < |row| ==>
               row[j] == Key(ScoreAt(a, q, k, v, b, kv, h, t, j), KeepMask(a.qOff, a.kvOff, ReferenceWindow(a), t, j))
               && col[j] == ValueAt(a, q, k, v, b, kv, j, d)
    ensures Clamped(a, q, k, v, tkvPtr).Valid()
    ensures Clamped(a, q, k, v, tkvPtr).Plain(exp, b, h, t, d) == Reference(exp, row, col)
  {
    var p := Clamped(a, q, k, v, tkvPtr);
    var keys, column := RowKeys(a, p.QVec(b, h, t), p.KvVecs(k, b, h), t), Column(p.KvVecs(v, b, h), a.headDim, d);
    forall j: nat | j < |row| ensures keys[j] == row[j] && column[j] == col[j] {
      KeyElement(p, b, kv, h, t, j, d);
    }
    assert keys == row && column == col;
  }

  lemma {:induction false} KeyElement(p: Problem, b: nat, kv: nat, h: nat, t: nat, j: nat, d: nat)
    requires p.Valid() && b < p.a.batch && Serves(kv, h, p.a.heads, p.a.headsKv) && h < p.a.heads && t < p.a.tq && j < p.tkv
    requires d < p.a.headDim
    ensures Sized(p.a, p.q, p.k, p.v)
    ensures RowKeys(p.a, p.QVec(b, h, t), p.KvVecs(p.k, b, h), t)[j] ==
            Key(ScoreAt(p.a, p.q, p.k, p.v, b, kv, h, t, j), KeepMask(p.a.qOff, p.a.kvOff, ReferenceWindow(p.a), t, j))
    ensures Column(p.KvVecs(p.v, b, h), p.a.headDim, d)[j] == ValueAt(p.a, p.q, p.k, p.v, b, kv, j, d)
  {
    ScoreElement(p, b, kv, h, t, j);
    KvElement(p, p.v, b, kv, h, j, d);
  }

  // Where an output element lies.
  lemma {:induction false} OutElement(a: Launch, o: array<real>, b: nat, h: nat, t: nat, d: nat)
    requires o.Length == OutSize(a) && InRange(a, b, h, t, d)
    ensures RowStart(b, t, h, a.tq, a.heads, a.headDim) + d < o.Length
    ensures Out(a, o, b, h, t, d) == o[RowStart(b, t, h, a.tq, a.heads, a.headDim) + d]
  {
    RowStartIs(b, t, h, a.batch, a.tq, a.heads, a.headDim);
  }

  // ---------- the tiled kernel ----------

  // A causal row sees what the script's mask keeps without a window; an encoder row, none past the live length, sees the
  // keys at most `window` away, or all of them for window 0.
  lemma {:induction false} SeenPositions(mode: T.Mode, tkv: nat, t_q: nat, t: nat)
    ensures mode.Causal? ==> (T.Live(mode, tkv, t_q, t) <==> KeepMask(mode.qOff, mode.kvOff, -1, t_q, t))
    ensures mode.Encoder? ==> (T.Live(mode, tkv, t_q, t) <==> t_q < tkv && (mode.window == 0 || Distance(t_q, t) <= mode.window))
  {
  }

  function Distance(s: nat, t: nat): nat { if s < t then t - s else s - t }

  // Main: what row (b, h, t) of a tiled dispatch sees and sums.
  lemma {:induction false} SeenElements(g: Grid, b: nat, kv: nat, h: nat, t: nat, j: nat, d: nat)
    requires g.Valid() && b < g.a.batch && Serves(kv, h, g.a.heads, g.a.headsKv) && t < g.a.tq && d < g.a.headDim && j < g.tkv[b]
    ensures Sized(g.a, g.q, g.k, g.v) && g.tkv[b] <= g.a.kvCapacity && h < g.a.heads
    ensures g.Seen(b, h, t)[j] == Key(ScoreAt(g.a, g.q, g.k, g.v, b, kv, h, t, j), T.Live(g.mode, g.tkv[b], t, j))
    ensures |g.Cols(b, h)[d]| == g.tkv[b] && g.Cols(b, h)[d][j] == ValueAt(g.a, g.q, g.k, g.v, b, kv, j, d)
  {
    var p := g.Of(b);
    HeadKvOf(kv, h, g.a.heads, g.a.headsKv);
    KeyElement(p, b, kv, h, t, j, d);
    assert g.Cols(b, h)[d] == Column(p.KvVecs(g.v, b, h), g.a.headDim, d);
  }

  // Where a row's elements and its log-sum-exp lie.
  lemma {:induction false} RowElement(a: Launch, os: seq<real>, b: nat, h: nat, t: nat, d: nat)
    requires |os| == OutSize(a) && InRange(a, b, h, t, d)
    ensures RowStart(b, t, h, a.tq, a.heads, a.headDim) + d < |os|
    ensures RowOf(a, os, b, h, t)[d] == os[RowStart(b, t, h, a.tq, a.heads, a.headDim) + d]
  {
    RowStartIs(b, t, h, a.batch, a.tq, a.heads, a.headDim);
    AttnTiledGrid.SliceAt(os, a.QRow(b, h, t), a.headDim, d);
  }

  lemma {:induction false} LseElement(a: Launch, ls: seq<real>, b: nat, h: nat, t: nat)
    requires |ls| == LseSize(a) && b < a.batch && h < a.heads && t < a.tq
    ensures (b * a.heads + h) * a.tq + t < |ls| && LseOf(a, ls, b, h, t) == ls[(b * a.heads + h) * a.tq + t]
  {
    LseFits(a, b, h, t);
  }
}
