// One attention dispatch as data: shapes, masks, and the plain masked softmax the kernels must equal
// (bench/flash_attn_torch_mlx.py, keep_mask and reference).
module AttnMask {
  import opened OnlineSoftmax
  import opened Layout

  // What the host fixes for one dispatch. `window` is read only when sliding, and 0 is unbounded.
  datatype Launch = Launch(batch: nat, tq: nat, heads: nat, headsKv: nat, headDim: nat, kvCapacity: nat,
                           sliding: bool, window: nat, scale: real, qOff: nat, kvOff: nat)
  {
    // The host refuses grouped-query shapes that do not divide.
    predicate Valid() {
      heads > 0 && headsKv > 0 && heads % headsKv == 0
    }

    function QRow(b: nat, h: nat, t: nat): nat { RowAddr(b, t, h, tq, heads, headDim) }

    function QElem(b: nat, h: nat, t: nat, d: nat): nat { QRow(b, h, t) + d }

    function KvRow(b: nat, h: nat, t: nat): nat
      requires headsKv > 0
    {
      RowAddr(b, t, HeadKv(h, heads, headsKv), kvCapacity, headsKv, headDim)
    }
  }

  // ---------- masks ----------

  // keep_mask of the bench script; a negative window is no window.
  predicate KeepMask(qOff: nat, kvOff: nat, window: int, t_q: nat, t_k: nat) {
    var q_abs, k_abs := qOff + t_q, kvOff + t_k;
    k_abs <= q_abs && (window >= 0 ==> k_abs >= if q_abs - window + 1 > 0 then q_abs - window + 1 else 0)
  }

  // The window the reference is called with for a launch.
  function ReferenceWindow(a: Launch): int {
    if a.sliding && a.window != 0 then a.window else -1
  }

  predicate Keep(a: Launch, t_q: nat, t_k: nat) {
    KeepMask(a.qOff, a.kvOff, ReferenceWindow(a), t_q, t_k)
  }

  // The kernel's own lowest key position for a row at absolute position q_abs.
  function KLo(a: Launch, q_abs: nat): nat {
    if a.sliding then
      var window_back := if a.window == 0 then 0 else a.window - 1;
      if a.window == 0 || q_abs < window_back then 0 else q_abs - window_back
    else 0
  }

  predicate KernelLive(a: Launch, t_q: nat, t_k: nat) {
    var q_abs, k_abs := a.qOff + t_q, a.kvOff + t_k;
    k_abs >= KLo(a, q_abs) && k_abs <= q_abs
  }

  // The kernel's bounds are the reference mask.
  lemma {:induction false} KernelMaskIsKeep(a: Launch, t_q: nat, t_k: nat)
    ensures KernelLive(a, t_q, t_k) <==> Keep(a, t_q, t_k)
  {
  }

  // The bench script calls its mask the kernels' rule verbatim. Given the launch's own window, the two
  // agree on every key of every row exactly when that window is not 0: the kernel reads 0 as unbounded,
  // the script as "attend to nothing".
  lemma {:induction false} BenchWindowAgreesIffNonZero(a: Launch)
    requires a.sliding
    ensures (forall t_q, t_k :: KernelLive(a, t_q, t_k) <==> KeepMask(a.qOff, a.kvOff, a.window, t_q, t_k))
            <==> a.window != 0
  {
    if a.window == 0 {
      assert KernelLive(a, a.kvOff, a.qOff);
      assert !KeepMask(a.qOff, a.kvOff, 0, a.kvOff, a.qOff);
    }
  }

  // The union window test: the tile of `rows` query rows from q0 skips the key block [t0, t0 + n).
  predicate Skips(a: Launch, q0: nat, rows: nat, t0: nat, n: nat)
    requires rows > 0 && n > 0
  {
    var block_lo := a.kvOff + t0;
    var block_hi := block_lo + n - 1;
    a.sliding && (block_hi < KLo(a, a.qOff + q0) || block_lo > a.qOff + q0 + rows - 1)
  }

  // No row of the tile keeps a key of a skipped block.
  lemma {:induction false} SkippedBlockIsDead(a: Launch, q0: nat, rows: nat, t0: nat, n: nat, t_q: nat, t_k: nat)
    requires rows > 0 && n > 0 && Skips(a, q0, rows, t0, n)
    requires q0 <= t_q < q0 + rows && t0 <= t_k < t0 + n
    ensures !Keep(a, t_q, t_k)
  {
    KernelMaskIsKeep(a, t_q, t_k);
  }

  // ---------- rows and columns ----------

  ghost predicate AllDim(vs: seq<seq<real>>, dim: nat) {
    forall j :: 0 <= j < |vs| ==> |vs[j]| == dim
  }

  ghost function Dot(q: seq<real>, k: seq<real>, n: nat): real
    requires n <= |q| && n <= |k|
  {
    if n == 0 then 0.0 else Dot(q, k, n - 1) + q[n - 1] * k[n - 1]
  }

  // What the query vector q at position t_q sees of the keys.
  ghost function RowKeys(a: Launch, q: seq<real>, ks: seq<seq<real>>, t_q: nat): (row: seq<Key>)
    requires |q| == a.headDim && AllDim(ks, a.headDim)
    ensures |row| == |ks|
    ensures forall j :: 0 <= j < |ks| ==> row[j] == Key(Dot(q, ks[j], a.headDim) * a.scale, Keep(a, t_q, j))
  {
    seq(|ks|, j requires 0 <= j < |ks| => Key(Dot(q, ks[j], a.headDim) * a.scale, Keep(a, t_q, j)))
  }

  // Coordinate d of every value vector.
  ghost function Column(vs: seq<seq<real>>, dim: nat, d: nat): (col: seq<real>)
    requires AllDim(vs, dim) && d < dim
    ensures |col| == |vs|
    ensures forall j :: 0 <= j < |vs| ==> col[j] == vs[j][d]
  {
    seq(|vs|, j requires 0 <= j < |vs| => vs[j][d])
  }

  // One dispatch with its flat inputs; `tkv` is the live key count, already clamped to the capacity.
  datatype Problem = Problem(a: Launch, q: seq<real>, k: seq<real>, v: seq<real>, tkv: nat)
  {
    ghost predicate Valid() {
      a.Valid() && tkv <= a.kvCapacity
      && |q| == a.batch * a.tq * a.heads * a.headDim
      && |k| == |v| == a.batch * a.kvCapacity * a.headsKv * a.headDim
    }

    function QVec(b: nat, h: nat, t: nat): (vec: seq<real>)
      requires Valid() && b < a.batch && h < a.heads && t < a.tq
      ensures |vec| == a.headDim
    {
      RowAddrFits(b, t, h, a.batch, a.tq, a.heads, a.headDim);
      q[a.QRow(b, h, t)..a.QRow(b, h, t) + a.headDim]
    }

    function QVecs(b: nat, h: nat, t0: nat, rows: nat): (vecs: seq<seq<real>>)
      requires Valid() && b < a.batch && h < a.heads && t0 + rows <= a.tq
      ensures |vecs| == rows && forall r :: 0 <= r < rows ==> vecs[r] == QVec(b, h, t0 + r)
    {
      seq(rows, r requires 0 <= r < rows => QVec(b, h, t0 + r))
    }

    // The key (or value) vectors query head h sees, each read at its row's address, from a buffer laid out as K and V are.
    function KvVecs(src: seq<real>, b: nat, h: nat): (vecs: seq<seq<real>>)
      requires Valid() && |src| == |k| && b < a.batch && h < a.heads
      ensures |vecs| == tkv && AllDim(vecs, a.headDim)
    {
      seq(tkv, j requires 0 <= j < tkv => KvVec(src, b, h, j))
    }

    function KvVec(src: seq<real>, b: nat, h: nat, j: nat): (vec: seq<real>)
      requires Valid() && |src| == |k| && b < a.batch && h < a.heads && j < tkv
      ensures |vec| == a.headDim
    {
      KvInBounds(b, h, j);
      src[a.KvRow(b, h, j)..a.KvRow(b, h, j) + a.headDim]
    }

    lemma {:induction false} KvInBounds(b: nat, h: nat, j: nat)
      requires Valid() && b < a.batch && h < a.heads && j < tkv
      ensures a.KvRow(b, h, j) + a.headDim <= |k|
    {
      HeadKvFits(h, a.heads, a.headsKv);
      RowAddrFits(b, j, HeadKv(h, a.heads, a.headsKv), a.batch, a.kvCapacity, a.headsKv, a.headDim);
    }

    // Plain masked attention at (b, t, h, d).
    ghost function Plain(exp: real -> real, b: nat, h: nat, t: nat, d: nat): real
      requires Valid() && b < a.batch && h < a.heads && t < a.tq && d < a.headDim
    {
      Reference(exp, RowKeys(a, QVec(b, h, t), KvVecs(k, b, h), t), Column(KvVecs(v, b, h), a.headDim, d))
    }
  }
}
