// The sparse encoder's batching (src/bert.rs): a greedy split into forwards that no contiguous split beats, and head
// blocks whose result is that of encoding each sequence alone.
module BertBatch {
  import opened Common
  import opened Layout

  const MAX_BATCH: nat := 256
  const MAX_BATCH_TOKENS: nat := 8192
  const HEAD_BLOCK_ROWS: nat := 2048

  type Ids = seq<nat>

  function Max(a: nat, b: nat): (m: nat)
    ensures m >= a && m >= b && (m == a || m == b)
  {
    if a > b then a else b
  }

  // The longest of sequences start, ..., end - 1.
  function Longest(batch: seq<Ids>, start: nat, end: nat): (l: nat)
    requires start <= end <= |batch|
    ensures forall i :: start <= i < end ==> |batch[i]| <= l
    decreases end - start
  {
    if start == end then 0 else Max(Longest(batch, start, end - 1), |batch[end - 1]|)
  }

  // A forward may hold these sequences: one alone, or padded within the budget.
  predicate Fits(batch: seq<Ids>, start: nat, end: nat)
    requires start < end <= |batch|
  {
    end - start == 1 || (end - start) * Longest(batch, start, end) <= MAX_BATCH_TOKENS
  }

  // Main: several sequences fit exactly when their number times the length of each of them stays within 8192.
  lemma {:induction false} FitsIff(batch: seq<Ids>, start: nat, end: nat)
    requires start < end <= |batch|
    ensures Fits(batch, start, end) <==>
            end - start == 1 || forall i :: start <= i < end ==> (end - start) * |batch[i]| <= 8192
  {
    var l, n := Longest(batch, start, end), end - start;
    forall i | start <= i < end ensures n * |batch[i]| <= n * l {
      MulMono(|batch[i]|, l, n);
    }
    var k := LongestIsOne(batch, start, end);
    assert n * |batch[k]| == n * l;
  }

  lemma {:induction false} LongestIsOne(batch: seq<Ids>, start: nat, end: nat) returns (i: nat)
    requires start < end <= |batch|
    ensures start <= i < end && |batch[i]| == Longest(batch, start, end)
  {
    i := end - 1;
    if start < end - 1 {
      var k := LongestIsOne(batch, start, end - 1);
      if |batch[k]| > |batch[i]| { i := k; }
    }
  }

  lemma {:induction false} LongestWithin(batch: seq<Ids>, a: nat, b: nat, c: nat, d: nat)
    requires a <= b <= c <= d <= |batch|
    ensures Longest(batch, b, c) <= Longest(batch, a, d)
    decreases d - a, c - b
  {
    if b < c {
      LongestWithin(batch, a, b, c - 1, d);
      assert |batch[c - 1]| <= Longest(batch, a, d);
    }
  }

  // Part of a forward that fits, fits.
  lemma {:induction false} PartFits(batch: seq<Ids>, a: nat, b: nat, c: nat, d: nat)
    requires a <= b < c <= d <= |batch| && Fits(batch, a, d)
    ensures Fits(batch, b, c)
  {
    if c - b > 1 {
      LongestWithin(batch, a, b, c, d);
      ProductWithin(c - b, d - a, Longest(batch, b, c), Longest(batch, a, d));
    }
  }

  lemma {:induction false} ProductWithin(a: nat, b: nat, l: nat, m: nat)
    requires a <= b && l <= m
    ensures a * l <= b * m
  {
    MulMono(a, b, l);
    MulMono(l, m, b);
  }

  // ---------- splits ----------

  // Cut points: a contiguous split of the first n sequences into forwards that fit.
  ghost predicate IsSplit(batch: seq<Ids>, cuts: seq<nat>, n: nat) {
    cuts != [] && cuts[0] == 0 && cuts[|cuts| - 1] == n <= |batch|
    && forall k :: 0 < k < |cuts| ==> Part(batch, cuts, k)
  }

  ghost predicate Part(batch: seq<Ids>, cuts: seq<nat>, k: nat)
    requires 0 < k < |cuts|
  {
    cuts[k - 1] < cuts[k] <= |batch| && Fits(batch, cuts[k - 1], cuts[k])
  }

  // Every part is as long as it can be.
  ghost predicate Greedy(batch: seq<Ids>, cuts: seq<nat>) {
    forall k :: 0 < k < |cuts| ==> Full(batch, cuts, k)
  }

  ghost predicate Full(batch: seq<Ids>, cuts: seq<nat>, k: nat)
    requires 0 < k < |cuts|
  {
    cuts[k - 1] < cuts[k] <= |batch| && (cuts[k] < |batch| ==> !Fits(batch, cuts[k - 1], cuts[k] + 1))
  }

  // After the same number of forwards the greedy split is never behind.
  lemma {:induction false} StaysAhead(batch: seq<Ids>, g: seq<nat>, p: seq<nat>, k: nat)
    requires IsSplit(batch, g, |batch|) && Greedy(batch, g) && IsSplit(batch, p, |batch|) && k < |g| && k < |p|
    ensures g[k] >= p[k]
  {
    if k > 0 {
      StaysAhead(batch, g, p, k - 1);
      assert Full(batch, g, k) && Part(batch, p, k) && Part(batch, g, k);
      if g[k] < p[k] {
        PartFits(batch, p[k - 1], g[k - 1], g[k] + 1, p[k]);
      }
    }
  }

  lemma {:induction false} CutsRise(batch: seq<Ids>, cuts: seq<nat>, n: nat, i: nat, j: nat)
    requires IsSplit(batch, cuts, n) && i < j < |cuts|
    ensures cuts[i] < cuts[j]
  {
    assert Part(batch, cuts, j);
    if i < j - 1 {
      CutsRise(batch, cuts, n, i, j - 1);
    }
  }

  // No contiguous split into forwards that fit uses fewer.
  lemma {:induction false} GreedyIsFewest(batch: seq<Ids>, g: seq<nat>, p: seq<nat>)
    requires IsSplit(batch, g, |batch|) && Greedy(batch, g) && IsSplit(batch, p, |batch|)
    ensures |g| <= |p|
  {
    if |p| < |g| {
      StaysAhead(batch, g, p, |p| - 1);
      CutsRise(batch, g, |batch|, |p| - 1, |g| - 1);
    }
  }

  // ---------- the model, row by row ----------

  // `row` is the encoder's output for one token of a sequence, `decode` the vocabulary head, `accum` the segment
  // pooling into a slot that starts at `zero`. What the padded rows and unwritten slots hold is arbitrary.
  datatype Model<!R, !L, !O> = Model(row: (Ids, nat) -> R, decode: R -> L, zero: O, accum: (O, seq<L>) -> O, junk: (nat, nat) -> R)

  function Logits<R, L, O>(m: Model<R, L, O>, ids: Ids): (l: seq<L>)
    ensures |l| == |ids|
  {
    seq(|ids|, t requires 0 <= t => m.decode(m.row(ids, t)))
  }

  // One sequence on its own.
  function Alone<R, L, O>(m: Model<R, L, O>, ids: Ids): O { m.accum(m.zero, Logits(m, ids)) }

  // The padded id matrix, row b holding sequence b and zeros.
  ghost predicate PaddedIs(padded: seq<nat>, batch: seq<Ids>, width: nat) {
    |padded| == |batch| * width && forall b, t :: 0 <= b < |batch| && 0 <= t < width ==> PaddedAt(padded, batch, width, b, t)
  }

  ghost predicate PaddedAt(padded: seq<nat>, batch: seq<Ids>, width: nat, b: nat, t: nat)
    requires |padded| == |batch| * width && b < |batch| && t < width
  {
    CellFits(|batch|, width, b, t);
    padded[Cell(b, width, t)] == if t < |batch[b]| then batch[b][t] else 0
  }

  // A sequence, then zeros up to the width.
  function PadRow(ids: Ids, width: nat): (r: seq<nat>)
    requires |ids| <= width
    ensures |r| == width
  {
    ids + seq(width - |ids|, _ => 0)
  }

  method Pad(batch: seq<Ids>, width: nat) returns (padded: seq<nat>)
    requires forall b :: 0 <= b < |batch| ==> |batch[b]| <= width
    ensures PaddedIs(padded, batch, width)
  {
    padded := [];
    for b := 0 to |batch|
      invariant PaddedIs(padded, batch[..b], width)
    {
      MoreRows(padded, batch, b, width);
      padded := padded + PadRow(batch[b], width);
    }
    assert batch[..|batch|] == batch;
  }

  lemma {:induction false} MoreRows(padded: seq<nat>, batch: seq<Ids>, n: nat, width: nat)
    requires n < |batch| && |batch[n]| <= width && PaddedIs(padded, batch[..n], width)
    ensures PaddedIs(padded + PadRow(batch[n], width), batch[..n + 1], width)
  {
    var more := padded + PadRow(batch[n], width);
    var now := batch[..n + 1];
    assert |more| == (n + 1) * width;
    forall b, t | 0 <= b <= n && 0 <= t < width ensures PaddedAt(more, now, width, b, t) {
      CellFits(n + 1, width, b, t);
      if b < n {
        CellFits(n, width, b, t);
        assert PaddedAt(padded, batch[..n], width, b, t);
      }
    }
  }

  // The real tokens of a padded row are the sequence.
  lemma {:induction false} Unpadded(padded: seq<nat>, batch: seq<Ids>, width: nat, b: nat)
    requires PaddedIs(padded, batch, width) && b < |batch| && |batch[b]| <= width
    ensures Cell(b, width, 0) + |batch[b]| <= |padded| && padded[Cell(b, width, 0)..Cell(b, width, 0) + |batch[b]|] == batch[b]
  {
    MulMono(b + 1, |batch|, width);
    assert (b + 1) * width == b * width + width;
    forall t | 0 <= t < |batch[b]| ensures padded[Cell(b, width, 0) + t] == batch[b][t] {
      assert PaddedAt(padded, batch, width, b, t);
    }
  }

  // The rows the encoder leaves: a real token's depends on its own sequence; padding holds anything.
  ghost predicate RowsAre<R, L, O>(m: Model<R, L, O>, x: seq<R>, batch: seq<Ids>, width: nat) {
    |x| == |batch| * width && forall b, t :: 0 <= b < |batch| && 0 <= t < width ==> RowAt(m, x, batch, width, b, t)
  }

  ghost predicate RowAt<R, L, O>(m: Model<R, L, O>, x: seq<R>, batch: seq<Ids>, width: nat, b: nat, t: nat)
    requires |x| == |batch| * width && b < |batch| && t < width
  {
    CellFits(|batch|, width, b, t);
    t < |batch[b]| ==> x[Cell(b, width, t)] == m.row(batch[b], t)
  }

  // The encoder over the padded ids and the lengths.
  method EncodeRows<R, L, O>(m: Model<R, L, O>, padded: seq<nat>, lens: seq<nat>, width: nat, ghost batch: seq<Ids>) returns (x: seq<R>)
    requires PaddedIs(padded, batch, width) && |lens| == |batch| && width > 0
    requires forall b :: 0 <= b < |batch| ==> lens[b] == |batch[b]| <= width
    ensures RowsAre(m, x, batch, width)
  {
    x := [];
    for b := 0 to |lens|
      invariant RowsAre(m, x, batch[..b], width)
    {
      Unpadded(padded, batch, width, b);
      var ids := padded[b * width..b * width + lens[b]];
      var rows := seq(width, t requires 0 <= t => if t < lens[b] then m.row(ids, t) else m.junk(b, t));
      MoreEncoded(m, x, rows, batch, b, width);
      x := x + rows;
    }
    assert batch[..|batch|] == batch;
  }

  lemma {:induction false} MoreEncoded<R, L, O>(m: Model<R, L, O>, x: seq<R>, rows: seq<R>, batch: seq<Ids>, n: nat, width: nat)
    requires n < |batch| && RowsAre(m, x, batch[..n], width) && |rows| == width
    requires forall t :: 0 <= t < |batch[n]| && t < width ==> rows[t] == m.row(batch[n], t)
    ensures RowsAre(m, x + rows, batch[..n + 1], width)
  {
    var more := x + rows;
    var now := batch[..n + 1];
    assert |more| == (n + 1) * width;
    forall b, t | 0 <= b <= n && 0 <= t < width ensures RowAt(m, more, now, width, b, t) {
      CellFits(n + 1, width, b, t);
      if b < n {
        CellFits(n, width, b, t);
        assert RowAt(m, x, batch[..n], width, b, t);
      }
    }
  }

  // Block rows from b0: the logits of a sequence's real rows are those of the sequence alone.
  lemma {:induction false} SegmentIs<R, L, O>(m: Model<R, L, O>, x: seq<R>, batch: seq<Ids>, width: nat, b0: nat, s: nat, logits: seq<L>)
    requires RowsAre(m, x, batch, width) && b0 + s < |batch| && |batch[b0 + s]| <= width
    requires s * width + width <= |logits| && b0 * width + |logits| <= |x|
    requires forall i :: 0 <= i < |logits| ==> logits[i] == m.decode(x[b0 * width + i])
    ensures logits[s * width..s * width + |batch[b0 + s]|] == Logits(m, batch[b0 + s])
  {
    var b := b0 + s;
    assert b * width == b0 * width + s * width;
    forall t | 0 <= t < |batch[b]| ensures logits[s * width + t] == m.decode(m.row(batch[b], t)) {
      assert RowAt(m, x, batch, width, b, t);
    }
  }

  // segment_sparse_max over a zeroed buffer: slot s takes the real rows of the block's sequence s.
  method PoolBlock<R, L, O>(m: Model<R, L, O>, ghost x: seq<R>, batch: seq<Ids>, width: nat, b0: nat, b1: nat, l: seq<L>, pooled: array<O>)
    requires RowsAre(m, x, batch, width) && b0 <= b1 <= |batch| && |l| == (b1 - b0) * width && b0 * width + |l| <= |x|
    requires (forall b :: 0 <= b < |batch| ==> |batch[b]| <= width) && b1 - b0 <= pooled.Length
    requires forall i :: 0 <= i < |l| ==> l[i] == m.decode(x[b0 * width + i])
    modifies pooled
    ensures forall s :: 0 <= s < b1 - b0 ==> pooled[s] == Alone(m, batch[b0 + s])
  {
    forall s | 0 <= s < pooled.Length {
      pooled[s] := m.zero;
    }
    for s := 0 to b1 - b0
      invariant forall i :: 0 <= i < s ==> pooled[i] == Alone(m, batch[b0 + i])
      invariant forall i :: s <= i < pooled.Length ==> pooled[i] == m.zero
    {
      InBlock(s, b1 - b0, width);
      SegmentIs(m, x, batch, width, b0, s, l);
      pooled[s] := m.accum(pooled[s], l[s * width..s * width + |batch[b0 + s]|]);
    }
  }

  // One head block: the logits of its rows, then the pooling of each sequence's real ones.
  method HeadBlock<R, L, O>(m: Model<R, L, O>, x: seq<R>, batch: seq<Ids>, width: nat, b0: nat, b1: nat, logits: array<L>, pooled: array<O>)
    requires RowsAre(m, x, batch, width) && b0 <= b1 <= |batch|
    requires forall b :: 0 <= b < |batch| ==> |batch[b]| <= width
    requires (b1 - b0) * width <= logits.Length && b1 - b0 <= pooled.Length && b0 * width + (b1 - b0) * width <= |x|
    modifies logits, pooled
    ensures forall s :: 0 <= s < b1 - b0 ==> pooled[s] == Alone(m, batch[b0 + s])
  {
    var blockRows := (b1 - b0) * width;
    forall i | 0 <= i < blockRows {
      logits[i] := m.decode(x[b0 * width + i]);
    }
    PoolBlock(m, x, batch, width, b0, b1, logits[..blockRows], pooled);
  }

  lemma {:induction false} InBlock(s: nat, n: nat, width: nat)
    requires s < n
    ensures s * width + width <= n * width
  {
    MulMono(s + 1, n, width);
    assert (s + 1) * width == s * width + width;
  }

  // Sequences per head block: within the row budget, or one.
  function PerBlock(seqLen: nat): (n: nat)
    requires seqLen > 0
    ensures n >= 1 && (n == 1 || n * seqLen <= HEAD_BLOCK_ROWS)
  {
    MulMono(0, HEAD_BLOCK_ROWS / seqLen, seqLen);
    Max(HEAD_BLOCK_ROWS / seqLen, 1)
  }

  // One sequence more would pass 2048 rows.
  lemma {:induction false} PerBlockLargest(seqLen: nat)
    requires seqLen > 0
    ensures PerBlock(seqLen) == 1 || PerBlock(seqLen) * seqLen <= 2048
    ensures (PerBlock(seqLen) + 1) * seqLen > 2048
  {
    var q := HEAD_BLOCK_ROWS / seqLen;
    assert HEAD_BLOCK_ROWS == q * seqLen + HEAD_BLOCK_ROWS % seqLen;
    assert (q + 1) * seqLen == q * seqLen + seqLen;
    MulMono(q + 1, PerBlock(seqLen) + 1, seqLen);
  }

  lemma {:induction false} BlockWithin(b0: nat, b1: nat, held: nat, n: nat, width: nat)
    requires b0 <= b1 <= n && b1 - b0 <= held
    ensures (b1 - b0) * width <= held * width && b0 * width + (b1 - b0) * width == b1 * width && b1 * width <= n * width
  {
    MulMono(b1 - b0, held, width);
    MulMono(b1, n, width);
  }

  // One forward: pad, encode, then the head over whole sequences, block by block, in buffers sized for one block.
  method Forward<R, L(0), O(0)>(m: Model<R, L, O>, batch: seq<Ids>) returns (out: seq<O>)
    requires batch != [] && forall b :: 0 <= b < |batch| ==> batch[b] != []
    ensures |out| == |batch| && forall b :: 0 <= b < |batch| ==> out[b] == Alone(m, batch[b])
  {
    var width := Longest(batch, 0, |batch|);
    var lens := seq(|batch|, b requires 0 <= b < |batch| => |batch[b]|);
    var padded := Pad(batch, width);
    assert |batch[0]| <= width;
    var x := EncodeRows(m, padded, lens, width, batch);
    var perBlock := PerBlock(width);
    var held := Min(perBlock, |batch|);
    var logits, pooled := new L[held * width], new O[Max(held, 1)];
    out := [];
    var b0 := 0;
    while b0 < |batch|
      invariant 0 <= b0 <= |batch| && |out| == b0 && fresh(logits) && fresh(pooled)
      invariant forall b :: 0 <= b < b0 ==> out[b] == Alone(m, batch[b])
    {
      var b1 := Min(b0 + perBlock, |batch|);
      BlockWithin(b0, b1, held, |batch|, width);
      HeadBlock(m, x, batch, width, b0, b1, logits, pooled);
      out := out + pooled[..b1 - b0];
      b0 := b1;
    }
  }

  // ---------- the call ----------

  datatype EncodeError = EmptyBatch | BatchLimit | TraceTakesOne | RelaxedGemms | EmptySequence(b: nat) | TooLong(b: nat) | BadToken(b: nat)

  datatype Checked = Accepted | Refused(error: EncodeError)

  // What `encode` checks of sequence b, in order.
  predicate SequenceOk(ids: Ids, positions: nat, vocab: nat) { ids != [] && |ids| <= positions && forall id :: id in ids ==> id < vocab }

  method CheckBatch(batch: seq<Ids>, trace: bool, relaxed: bool, positions: nat, vocab: nat) returns (r: Checked)
    ensures r.Accepted? <==>
            0 < |batch| <= MAX_BATCH && (trace ==> |batch| == 1) && !relaxed
            && forall b :: 0 <= b < |batch| ==> SequenceOk(batch[b], positions, vocab)
    ensures r.Refused? && (r.error.EmptySequence? || r.error.TooLong? || r.error.BadToken?) ==>
              r.error.b < |batch| && forall b :: 0 <= b < r.error.b ==> SequenceOk(batch[b], positions, vocab)
    ensures r.Refused? && r.error.EmptySequence? ==> batch[r.error.b] == []
    ensures r.Refused? && r.error.TooLong? ==> |batch[r.error.b]| > positions
    ensures r.Refused? && r.error.BadToken? ==> exists id :: id in batch[r.error.b] && id >= vocab
  {
    if |batch| == 0 {
      return Refused(EmptyBatch);
    }
    if |batch| > MAX_BATCH {
      return Refused(BatchLimit);
    }
    if trace && |batch| != 1 {
      return Refused(TraceTakesOne);
    }
    if relaxed {
      return Refused(RelaxedGemms);
    }
    for b := 0 to |batch|
      invariant forall k :: 0 <= k < b ==> SequenceOk(batch[k], positions, vocab)
    {
      if batch[b] == [] {
        return Refused(EmptySequence(b));
      }
      if |batch[b]| > positions {
        return Refused(TooLong(b));
      }
      if exists id :: id in batch[b] && id >= vocab {
        return Refused(BadToken(b));
      }
    }
    r := Accepted;
  }

  // The longest forward from `start` that stays inside the row budget.
  method Grow(batch: seq<Ids>, start: nat) returns (end: nat)
    requires start < |batch|
    ensures start < end <= |batch| && Fits(batch, start, end) && (end < |batch| ==> !Fits(batch, start, end + 1))
  {
    end := start + 1;
    var longest := |batch[start]|;
    while end < |batch|
      invariant start < end <= |batch| && longest == Longest(batch, start, end) && Fits(batch, start, end)
    {
      var l := Max(longest, |batch[end]|);
      if (end + 1 - start) * l > MAX_BATCH_TOKENS {
        break;
      }
      longest := l;
      end := end + 1;
    }
  }

  // encode, on a batch the checks accept: every sequence's vector is its own, alone, in the order given; the cuts
  // are a split into forwards that fit, and no split has fewer.
  method Encode<R, L(0), O(0)>(m: Model<R, L, O>, batch: seq<Ids>) returns (pooled: seq<O>, forwards: nat, ghost cuts: seq<nat>)
    requires batch != [] && forall b :: 0 <= b < |batch| ==> batch[b] != []
    ensures |pooled| == |batch| && forall b :: 0 <= b < |batch| ==> pooled[b] == Alone(m, batch[b])
    ensures IsSplit(batch, cuts, |batch|) && forwards == |cuts| - 1
    ensures forall p :: IsSplit(batch, p, |batch|) ==> forwards <= |p| - 1
  {
    pooled, forwards, cuts := [], 0, [0];
    var start := 0;
    while start < |batch|
      invariant 0 <= start <= |batch| && |pooled| == start && forwards == |cuts| - 1
      invariant forall b :: 0 <= b < start ==> pooled[b] == Alone(m, batch[b])
      invariant IsSplit(batch, cuts, start) && Greedy(batch, cuts)
    {
      var end := Grow(batch, start);
      var p := Forward(m, batch[start..end]);
      pooled := pooled + p;
      forwards := forwards + 1;
      MoreCuts(batch, cuts, start, end);
      cuts := cuts + [end];
      start := end;
    }
    forall p | IsSplit(batch, p, |batch|) ensures forwards <= |p| - 1 {
      GreedyIsFewest(batch, cuts, p);
    }
  }

  lemma {:induction false} MoreCuts(batch: seq<Ids>, cuts: seq<nat>, start: nat, end: nat)
    requires IsSplit(batch, cuts, start) && Greedy(batch, cuts) && start < end <= |batch|
    requires Fits(batch, start, end) && (end < |batch| ==> !Fits(batch, start, end + 1))
    ensures IsSplit(batch, cuts + [end], end) && Greedy(batch, cuts + [end])
  {
    var more := cuts + [end];
    forall k | 0 < k < |more| ensures Part(batch, more, k) && Full(batch, more, k) {
      if k < |cuts| {
        assert Part(batch, cuts, k) && Full(batch, cuts, k);
      }
    }
  }
}
