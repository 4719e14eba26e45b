// The indexed form of the same product for up to eight activation rows (kernels/gemm_q4_mlx_simd.h).
module Q4Gemm {
  import opened Common
  import opened Layout
  import opened Q4Dot
  import opened Q4Gemv

  const GEMM_MAX_M: nat := 8

  // Activation row m of a row-major [M, cols] buffer.
  ghost function XRow(x: seq<real>, cols: nat, m: nat): (r: seq<real>)
    requires Cell(m, cols, 0) + cols <= |x|
    ensures |r| == cols
  {
    x[Cell(m, cols, 0)..Cell(m, cols, 0) + cols]
  }

  ghost predicate XFits(x: seq<real>, cols: nat, mCap: nat) { mCap * cols <= |x| }

  lemma {:induction false} RowFits(x: seq<real>, cols: nat, mCap: nat, m: nat)
    requires XFits(x, cols, mCap) && m < mCap
    ensures Cell(m, cols, 0) + cols <= |x|
  {
    MulMono(m + 1, mCap, cols);
    assert (m + 1) * cols == m * cols + cols;
  }

  lemma {:induction false} SumShift(x: seq<real>, y: seq<real>, at: nat, lo: nat, n: nat)
    requires at + |y| <= |x| && y == x[at..at + |y|] && lo + n <= |y|
    ensures SumOf(x, at + lo, at + lo + n) == SumOf(y, lo, lo + n)
  {
    if n > 0 {
      SumShift(x, y, at, lo, n - 1);
    }
  }

  lemma {:induction false} SliceShift(x: seq<real>, y: seq<real>, at: nat, lo: nat, n: nat)
    requires at + |y| <= |x| && y == x[at..at + |y|] && lo + n <= |y|
    ensures x[at + lo..at + lo + n] == y[lo..lo + n]
  {
    var u, v := x[at + lo..at + lo + n], y[lo..lo + n];
    forall k | 0 <= k < n ensures u[k] == v[k] {
      assert y[lo + k] == x[at + (lo + k)];
    }
  }

  // Lane `lane`'s register for row row0 + r and activation row m, after t blocks.
  ghost function GemmAt(s: Shape, l: Q4Layout, bank: Bank, x: seq<real>, mCap: nat, row0: nat, r: nat, m: nat, lane: nat, t: nat): real
    requires s.Valid() && Holds(s, l, bank) && row0 + r < s.rows && XFits(x, s.cols, mCap) && m < mCap
  {
    Columns16(s);
    RowFits(x, s.cols, mCap, m);
    LaneSum(Weights(s, l, bank, row0 + r), XRow(x, s.cols, m), s.cols / 16, lane, t)
  }

  lemma {:induction false} NextGemmAt(s: Shape, l: Q4Layout, bank: Bank, x: seq<real>, mCap: nat, row0: nat, r: nat, m: nat, lane: nat, t: nat)
    requires s.Valid() && Holds(s, l, bank) && row0 + r < s.rows && XFits(x, s.cols, mCap) && m < mCap
    ensures GemmAt(s, l, bank, x, mCap, row0, r, m, lane, t + 1) ==
            GemmAt(s, l, bank, x, mCap, row0, r, m, lane, t)
            + if 32 * t + lane < s.cols / 16 then GemmChunk(s, l, bank, x, mCap, row0 + r, m, 32 * t + lane) else 0.0
  {
    Columns16(s);
    RowFits(x, s.cols, mCap, m);
  }

  lemma {:induction false} MoreGemmAt(s: Shape, l: Q4Layout, bank: Bank, x: seq<real>, mCap: nat, row0: nat, r: nat, m: nat, lane: nat, t: nat, j: nat)
    requires s.Valid() && Holds(s, l, bank) && row0 + r < s.rows && XFits(x, s.cols, mCap) && m < mCap
    requires j == 32 * t + lane && j < s.cols / 16
    ensures GemmAt(s, l, bank, x, mCap, row0, r, m, lane, t + 1) ==
            GemmAt(s, l, bank, x, mCap, row0, r, m, lane, t) + GemmChunk(s, l, bank, x, mCap, row0 + r, m, j)
  {
    NextGemmAt(s, l, bank, x, mCap, row0, r, m, lane, t);
  }

  ghost function GemmChunk(s: Shape, l: Q4Layout, bank: Bank, x: seq<real>, mCap: nat, row: nat, m: nat, j: nat): real
    requires s.Valid() && Holds(s, l, bank) && row < s.rows && XFits(x, s.cols, mCap) && m < mCap && j < s.cols / 16
  {
    Columns16(s);
    RowFits(x, s.cols, mCap, m);
    Chunk(Weights(s, l, bank, row), XRow(x, s.cols, m), j)
  }

  // xts[m], xsums[m] are activation row m's sixteen elements from column 16j, prescaled, and their sum.
  ghost predicate Loaded(xts: seq<seq<real>>, xsums: seq<real>, x: seq<real>, cols: nat, mCap: nat, j: nat)
    requires XFits(x, cols, mCap) && 16 * j + 16 <= cols
  {
    |xts| == mCap && |xsums| == mCap && forall m :: 0 <= m < mCap ==> LoadedRow(xts[m], xsums[m], x, cols, mCap, m, j)
  }

  ghost predicate LoadedRow(xt: seq<real>, xsum: real, x: seq<real>, cols: nat, mCap: nat, m: nat, j: nat)
    requires XFits(x, cols, mCap) && 16 * j + 16 <= cols && m < mCap
  {
    RowFits(x, cols, mCap, m);
    Prescaled(xt, XRow(x, cols, m)[16 * j..16 * j + 16]) && xsum == SumOf(XRow(x, cols, m), 16 * j, 16 * j + 16)
  }

  // One activation row y, which starts at `at` in x.
  method LoadRow(x: seq<real>, ghost y: seq<real>, at: nat, lo: nat, xt: array<real>) returns (sum: real)
    requires at + |y| <= |x| && y == x[at..at + |y|] && lo + 16 <= |y| && xt.Length == 16
    modifies xt
    ensures Prescaled(xt[..], y[lo..lo + 16]) && sum == SumOf(y, lo, lo + 16)
  {
    SliceShift(x, y, at, lo, 16);
    SumShift(x, y, at, lo, 16);
    sum := LoadX16(x, at + lo, xt);
  }

  method LoadRows(x: seq<real>, cols: nat, mCap: nat, j: nat, xt: array<real>) returns (xts: seq<seq<real>>, xsums: seq<real>)
    requires XFits(x, cols, mCap) && 16 * j + 16 <= cols && xt.Length == 16
    modifies xt
    ensures Loaded(xts, xsums, x, cols, mCap, j)
  {
    xts, xsums := [], [];
    for m := 0 to mCap
      invariant |xts| == m && |xsums| == m && forall i :: 0 <= i < m ==> LoadedRow(xts[i], xsums[i], x, cols, mCap, i, j)
    {
      RowFits(x, cols, mCap, m);
      var sum := LoadRow(x, XRow(x, cols, m), Cell(m, cols, 0), 16 * j, xt);
      xts, xsums := xts + [xt[..]], xsums + [sum];
    }
  }

  // The kernel's index arithmetic is the layout's.
  lemma {:induction false} IndexedAddress(s: Shape, l: Q4Layout, row0: nat, r: nat, j: nat, g: nat, sbAt: nat, wp: nat)
    requires s.Valid() && row0 % 4 == 0 && r < 4
    requires l == RowMajor ==> sbAt == Cell(row0 + r, s.Groups(), g) && wp == Cell(row0 + r, s.cols / 2, 16 * j / 2)
    requires l == Interleaved4 ==>
               sbAt == Cell(Cell(row0 / 4, s.Groups(), g), 4, r) && wp == Cell(row0 / 4, s.cols / 16, 16 * j / 16) * 4 * 8 + r * 8
    ensures sbAt == SbAt(s, l, row0 + r, g) && wp == ByteAt(s, l, row0 + r, j, 0)
  {
    RowOfTile(row0, r);
  }

  // What a pack's addresses hold.
  lemma {:induction false} TermAddress(s: Shape, l: Q4Layout, bank: Bank, row: nat, j: nat, g: nat, sbAt: nat, wp: nat)
    requires s.Valid() && Holds(s, l, bank) && row < s.rows && j < s.cols / 16 && 16 * j < s.cols && g == Group(s, 16 * j)
    requires sbAt == SbAt(s, l, row, g) && wp == ByteAt(s, l, row, j, 0)
    ensures sbAt < |bank.sb| && wp + 8 <= |bank.packed|
    ensures bank.sb[sbAt] == PackSb(s, l, bank, row, j) && bank.packed[wp..wp + 8] == PackBytes(s, l, bank, row, j)
  {
    GroupOf(s, 16 * j);
    SbFits(s, l, bank, row, g);
    ByteFits(s, l, bank, row, j, 7);
  }

  // One row's pack, by its own index.
  method GemmTerm(s: Shape, l: Q4Layout, bank: Bank, ghost x: seq<real>, row0: nat, r: nat, j: nat, xt: seq<real>, xsum: real)
    returns (v: real)
    requires s.Valid() && Holds(s, l, bank) && row0 % 4 == 0 && r < 4 && row0 + r < s.rows && j < s.cols / 16 && s.cols <= |x|
    requires 16 * j + 16 <= s.cols && Prescaled(xt, x[16 * j..16 * j + 16]) && xsum == SumOf(x, 16 * j, 16 * j + 16)
    ensures v == Chunk(Weights(s, l, bank, row0 + r), x, j)
  {
    var sbAt, wp := TermIndex(s, l, row0, r, j);
    TermAddress(s, l, bank, row0 + r, j, Group(s, 16 * j), sbAt, wp);
    v := Qdot16(bank.packed, wp, xt, x[16 * j..16 * j + 16], bank.sb[sbAt], xsum);
    PackDotIsRange(s, l, bank, x, row0 + r, j);
  }

  // The kernel's own indices of a pack's scale and first byte.
  method TermIndex(s: Shape, l: Q4Layout, row0: nat, r: nat, j: nat) returns (sbAt: nat, wp: nat)
    requires s.Valid() && row0 % 4 == 0 && r < 4 && 16 * j < s.cols
    ensures sbAt == SbAt(s, l, row0 + r, Group(s, 16 * j)) && wp == ByteAt(s, l, row0 + r, j, 0)
  {
    var col, tile, row, gpr := 16 * j, row0 / 4, row0 + r, s.Groups();
    var g: nat, byteOff, pack2 := Group(s, col), col / 2, col / 16;
    sbAt := if l == RowMajor then Cell(row, gpr, g) else Cell(Cell(tile, gpr, g), 4, r);
    wp := if l == RowMajor then Cell(row, s.cols / 2, byteOff) else Cell(tile, s.cols / 16, pack2) * 4 * 8 + r * 8;
    IndexedAddress(s, l, row0, r, j, g, sbAt, wp);
  }

  method GemmTermOf(s: Shape, l: Q4Layout, bank: Bank, ghost x: seq<real>, ghost mCap: nat, row0: nat, r: nat, ghost m: nat, j: nat,
                    xt: seq<real>, xsum: real) returns (v: real)
    requires s.Valid() && Holds(s, l, bank) && row0 % 4 == 0 && r < 4 && row0 + r < s.rows && j < s.cols / 16
    requires XFits(x, s.cols, mCap) && m < mCap && 16 * j + 16 <= s.cols && LoadedRow(xt, xsum, x, s.cols, mCap, m, j)
    ensures v == GemmChunk(s, l, bank, x, mCap, row0 + r, m, j)
  {
    RowFits(x, s.cols, mCap, m);
    v := GemmTerm(s, l, bank, XRow(x, s.cols, m), row0, r, j, xt, xsum);
  }

  // Rows before r have block t, and of row r the activation rows before m.
  ghost predicate GemmUpTo(acc: array2<real>, s: Shape, l: Q4Layout, bank: Bank, x: seq<real>, mCap: nat, row0: nat, lane: nat,
                           t: nat, r: nat, m: nat)
    reads acc
    requires s.Valid() && Holds(s, l, bank) && XFits(x, s.cols, mCap)
  {
    acc.Length0 == 4 && acc.Length1 == GEMM_MAX_M && mCap <= GEMM_MAX_M
    && forall i, k :: 0 <= i < 4 && 0 <= k < mCap && row0 + i < s.rows ==>
         acc[i, k] == GemmAt(s, l, bank, x, mCap, row0, i, k, lane, if i < r || (i == r && k < m) then t + 1 else t)
  }

  method GemmRow(s: Shape, l: Q4Layout, bank: Bank, ghost x: seq<real>, mCap: nat, row0: nat, r: nat, ghost lane: nat, ghost t: nat,
                 j: nat, xts: seq<seq<real>>, xsums: seq<real>, acc: array2<real>)
    requires s.Valid() && Holds(s, l, bank) && XFits(x, s.cols, mCap) && row0 % 4 == 0 && r < 4 && row0 + r < s.rows
    requires j == 32 * t + lane && j < s.cols / 16 && 16 * j + 16 <= s.cols && Loaded(xts, xsums, x, s.cols, mCap, j)
    requires GemmUpTo(acc, s, l, bank, x, mCap, row0, lane, t, r, 0)
    modifies acc
    ensures GemmUpTo(acc, s, l, bank, x, mCap, row0, lane, t, r + 1, 0)
  {
    for m := 0 to mCap
      invariant GemmUpTo(acc, s, l, bank, x, mCap, row0, lane, t, r, m)
    {
      assert LoadedRow(xts[m], xsums[m], x, s.cols, mCap, m, j);
      MoreGemmAt(s, l, bank, x, mCap, row0, r, m, lane, t, j);
      var v := GemmTermOf(s, l, bank, x, mCap, row0, r, m, j, xts[m], xsums[m]);
      acc[r, m] := acc[r, m] + v;
    }
  }

  lemma {:induction false} IdleGemm(acc: array2<real>, s: Shape, l: Q4Layout, bank: Bank, x: seq<real>, mCap: nat, row0: nat, lane: nat, t: nat)
    requires s.Valid() && Holds(s, l, bank) && XFits(x, s.cols, mCap) && 32 * t + lane >= s.cols / 16
    requires GemmUpTo(acc, s, l, bank, x, mCap, row0, lane, t, 0, 0)
    ensures GemmUpTo(acc, s, l, bank, x, mCap, row0, lane, t + 1, 0, 0)
  {
    forall i, k | 0 <= i < 4 && 0 <= k < mCap && row0 + i < s.rows
      ensures acc[i, k] == GemmAt(s, l, bank, x, mCap, row0, i, k, lane, t + 1)
    {
      NextGemmAt(s, l, bank, x, mCap, row0, i, k, lane, t);
    }
  }

  // One K block of one lane.
  method GemmBlock(s: Shape, l: Q4Layout, bank: Bank, x: seq<real>, mCap: nat, row0: nat, lane: nat, ghost t: nat, col: nat,
                   xt: array<real>, acc: array2<real>)
    requires s.Valid() && Holds(s, l, bank) && XFits(x, s.cols, mCap) && row0 % 4 == 0
    requires col == 16 * (32 * t + lane) && xt.Length == 16
    requires GemmUpTo(acc, s, l, bank, x, mCap, row0, lane, t, 0, 0)
    modifies xt, acc
    ensures GemmUpTo(acc, s, l, bank, x, mCap, row0, lane, t + 1, 0, 0)
  {
    PackInside(s, 32 * t + lane);
    if col + SIMD_VPT <= s.cols {
      var j := col / 16;
      var xts, xsums := LoadRows(x, s.cols, mCap, j, xt);
      for r := 0 to 4
        invariant GemmUpTo(acc, s, l, bank, x, mCap, row0, lane, t, r, 0)
      {
        if row0 + r >= s.rows {
          break;
        }
        GemmRow(s, l, bank, x, mCap, row0, r, lane, t, j, xts, xsums, acc);
      }
    } else {
      IdleGemm(acc, s, l, bank, x, mCap, row0, lane, t);
    }
  }

  method GemmLane(s: Shape, l: Q4Layout, bank: Bank, x: seq<real>, mCap: nat, row0: nat, lane: nat) returns (acc: array2<real>)
    requires s.Valid() && Holds(s, l, bank) && XFits(x, s.cols, mCap) && mCap <= GEMM_MAX_M && row0 % 4 == 0 && lane < 32
    ensures fresh(acc) && GemmUpTo(acc, s, l, bank, x, mCap, row0, lane, Blocks(s.cols), 0, 0)
  {
    acc := new real[4, GEMM_MAX_M]((_, _) => 0.0);
    var xt := new real[16](_ => 0.0);
    var k0: nat := 0;
    ghost var t: nat := 0;
    while k0 < s.cols
      invariant k0 == 512 * t && t <= Blocks(s.cols) && fresh(acc) && fresh(xt) && xt.Length == 16
      invariant GemmUpTo(acc, s, l, bank, x, mCap, row0, lane, t, 0, 0)
      decreases s.cols - k0
    {
      BlockCount(s.cols, t);
      GemmBlock(s, l, bank, x, mCap, row0, lane, t, k0 + lane * SIMD_VPT, xt, acc);
      k0 := k0 + SIMD_BLOCK;
      t := t + 1;
    }
    BlockCount(s.cols, t);
  }

  // Row row0 + r against activation row m, summed over the first `lanes` lanes.
  ghost function GemmSum(s: Shape, l: Q4Layout, bank: Bank, x: seq<real>, mCap: nat, row0: nat, r: nat, m: nat, lanes: nat): real
    requires s.Valid() && Holds(s, l, bank) && row0 + r < s.rows && XFits(x, s.cols, mCap) && m < mCap
  {
    Columns16(s);
    RowFits(x, s.cols, mCap, m);
    LanesSum(Weights(s, l, bank, row0 + r), XRow(x, s.cols, m), s.cols / 16, lanes, Blocks(s.cols))
  }

  ghost function GemmDot(s: Shape, l: Q4Layout, bank: Bank, x: seq<real>, mCap: nat, row: nat, m: nat): real
    requires s.Valid() && Holds(s, l, bank) && row < s.rows && XFits(x, s.cols, mCap) && m < mCap
  {
    RowFits(x, s.cols, mCap, m);
    Dot(s, l, bank, XRow(x, s.cols, m), row)
  }

  ghost predicate GemmSums(sums: array2<real>, s: Shape, l: Q4Layout, bank: Bank, x: seq<real>, mCap: nat, row0: nat, lanes: nat)
    reads sums
    requires s.Valid() && Holds(s, l, bank) && XFits(x, s.cols, mCap)
  {
    sums.Length0 == 4 && sums.Length1 == GEMM_MAX_M && mCap <= GEMM_MAX_M
    && forall i, k :: 0 <= i < 4 && 0 <= k < mCap && row0 + i < s.rows ==>
         sums[i, k] == GemmSum(s, l, bank, x, mCap, row0, i, k, lanes)
  }

  method GemmSumLane(s: Shape, l: Q4Layout, bank: Bank, x: seq<real>, mCap: nat, row0: nat, lane: nat, sums: array2<real>)
    requires s.Valid() && Holds(s, l, bank) && XFits(x, s.cols, mCap) && row0 % 4 == 0 && lane < 32
    requires GemmSums(sums, s, l, bank, x, mCap, row0, lane)
    modifies sums
    ensures GemmSums(sums, s, l, bank, x, mCap, row0, lane + 1)
  {
    var acc := GemmLane(s, l, bank, x, mCap, row0, lane);
    forall i, k | 0 <= i < 4 && 0 <= k < GEMM_MAX_M {
      sums[i, k] := sums[i, k] + acc[i, k];
    }
  }

  lemma {:induction false} GemmSumIsDot(s: Shape, l: Q4Layout, bank: Bank, x: seq<real>, mCap: nat, row0: nat, r: nat, m: nat)
    requires s.Valid() && Holds(s, l, bank) && row0 + r < s.rows && XFits(x, s.cols, mCap) && m < mCap
    ensures GemmSum(s, l, bank, x, mCap, row0, r, m, 32) == GemmDot(s, l, bank, x, mCap, row0 + r, m)
  {
    RowFits(x, s.cols, mCap, m);
    LanesAreDot(s, l, bank, XRow(x, s.cols, m), row0 + r);
  }

  // All 32 lanes' registers summed.
  method GemmLanes(s: Shape, l: Q4Layout, bank: Bank, x: seq<real>, mCap: nat, row0: nat) returns (sums: array2<real>)
    requires s.Valid() && Holds(s, l, bank) && XFits(x, s.cols, mCap) && mCap <= GEMM_MAX_M && row0 % 4 == 0
    ensures fresh(sums) && GemmSums(sums, s, l, bank, x, mCap, row0, 32)
  {
    sums := new real[4, GEMM_MAX_M]((_, _) => 0.0);
    for lane := 0 to 32
      invariant fresh(sums) && GemmSums(sums, s, l, bank, x, mCap, row0, lane)
    {
      GemmSumLane(s, l, bank, x, mCap, row0, lane, sums);
    }
  }

  // The residual of the ADD form, or none.
  datatype Resid = NoResid | Resid(value: seq<real>)
  {
    predicate Fits(n: nat) { Resid? ==> n <= |value| }

    function At(idx: nat): real
      requires Fits(idx + 1)
    {
      if Resid? then value[idx] else 0.0
    }
  }

  // Output row `row`, activation row m, which is y[m * rows + row].
  ghost function GemmOut(s: Shape, l: Q4Layout, bank: Bank, x: seq<real>, mCap: nat, resid: Resid, m: nat, row: nat): real
    requires s.Valid() && Holds(s, l, bank) && XFits(x, s.cols, mCap) && row < s.rows && m < mCap && resid.Fits(mCap * s.rows)
  {
    CellFits(mCap, s.rows, m, row);
    GemmDot(s, l, bank, x, mCap, row, m) + resid.At(Cell(m, s.rows, row))
  }

  // Main: in elements of the flat buffers, activation row m being x[m * cols..] and its output y[m * rows..].
  lemma {:induction false} GemmOutIs(s: Shape, l: Q4Layout, bank: Bank, x: seq<real>, mCap: nat, resid: Resid, m: nat, row: nat,
                                     xAt: nat, at: nat)
    requires s.Valid() && Holds(s, l, bank) && XFits(x, s.cols, mCap) && row < s.rows && m < mCap && resid.Fits(mCap * s.rows)
    requires xAt == m * s.cols && at == m * s.rows + row
    ensures xAt + s.cols <= |x| && (resid.Resid? ==> at < |resid.value|)
    ensures GemmOut(s, l, bank, x, mCap, resid, m, row) ==
            Dot(s, l, bank, x[xAt..xAt + s.cols], row) + if resid.Resid? then resid.value[at] else 0.0
  {
    RowFits(x, s.cols, mCap, m);
    CellFits(mCap, s.rows, m, row);
    assert XRow(x, s.cols, m) == x[xAt..xAt + s.cols];
  }

  // Rows from, ..., to - 1 that exist are written for every activation row, and row `to` for the first `part` of them;
  // everything else is as it was.
  ghost predicate GemmWrote(y: seq<real>, was: seq<real>, s: Shape, l: Q4Layout, bank: Bank, x: seq<real>, mCap: nat,
                            resid: Resid, from: nat, to: nat, part: nat)
    requires s.Valid() && Holds(s, l, bank) && XFits(x, s.cols, mCap) && resid.Fits(mCap * s.rows)
  {
    |y| == |was| && mCap * s.rows <= |y|
    && (forall m, row :: 0 <= m < mCap && 0 <= row < s.rows ==>
          (Cell(m, s.rows, row) < |y|
           && y[Cell(m, s.rows, row)] == if from <= row < to || (row == to && m < part)
                                         then GemmOut(s, l, bank, x, mCap, resid, m, row) else was[Cell(m, s.rows, row)]))
    && forall idx :: mCap * s.rows <= idx < |y| ==> y[idx] == was[idx]
  }

  lemma {:induction false} GemmNone(was: seq<real>, s: Shape, l: Q4Layout, bank: Bank, x: seq<real>, mCap: nat, resid: Resid, from: nat)
    requires s.Valid() && Holds(s, l, bank) && XFits(x, s.cols, mCap) && resid.Fits(mCap * s.rows) && mCap * s.rows <= |was|
    ensures GemmWrote(was, was, s, l, bank, x, mCap, resid, from, from, 0)
  {
    forall m, row | 0 <= m < mCap && 0 <= row < s.rows ensures Cell(m, s.rows, row) < |was| {
      CellFits(mCap, s.rows, m, row);
    }
  }

  lemma {:induction false} GemmOneMore(now: seq<real>, before: seq<real>, was: seq<real>, s: Shape, l: Q4Layout, bank: Bank, x: seq<real>,
                                       mCap: nat, resid: Resid, from: nat, row: nat, m: nat)
    requires s.Valid() && Holds(s, l, bank) && XFits(x, s.cols, mCap) && resid.Fits(mCap * s.rows) && row < s.rows && m < mCap
    requires GemmWrote(before, was, s, l, bank, x, mCap, resid, from, row, m) && Cell(m, s.rows, row) < |before|
    requires now == before[Cell(m, s.rows, row) := GemmOut(s, l, bank, x, mCap, resid, m, row)]
    ensures GemmWrote(now, was, s, l, bank, x, mCap, resid, from, row, m + 1)
  {
    CellFits(mCap, s.rows, m, row);
    forall m', row' | 0 <= m' < mCap && 0 <= row' < s.rows
      ensures Cell(m', s.rows, row') < |now|
              && now[Cell(m', s.rows, row')] == if from <= row' < row || (row' == row && m' < m + 1)
                                                then GemmOut(s, l, bank, x, mCap, resid, m', row') else was[Cell(m', s.rows, row')]
    {
      if Cell(m', s.rows, row') == Cell(m, s.rows, row) {
        CellInjective(s.rows, m', row', m, row);
      }
    }
  }

  method GemmPut(s: Shape, l: Q4Layout, bank: Bank, ghost x: seq<real>, mCap: nat, y: array<real>, resid: Resid, ghost from: nat,
                 row: nat, m: nat, value: real, ghost was: seq<real>)
    requires s.Valid() && Holds(s, l, bank) && XFits(x, s.cols, mCap) && resid.Fits(mCap * s.rows) && row < s.rows && m < mCap
    requires GemmWrote(y[..], was, s, l, bank, x, mCap, resid, from, row, m)
    requires value == GemmOut(s, l, bank, x, mCap, resid, m, row)
    modifies y
    ensures GemmWrote(y[..], was, s, l, bank, x, mCap, resid, from, row, m + 1)
  {
    CellFits(mCap, s.rows, m, row);
    ghost var before := y[..];
    y[Cell(m, s.rows, row)] := value;
    GemmOneMore(y[..], before, was, s, l, bank, x, mCap, resid, from, row, m);
  }

  method GemmStore(s: Shape, l: Q4Layout, bank: Bank, ghost x: seq<real>, mCap: nat, y: array<real>, resid: Resid, row0: nat, r: nat,
                   sums: array2<real>, ghost was: seq<real>)
    requires s.Valid() && Holds(s, l, bank) && XFits(x, s.cols, mCap) && r < 4 && resid.Fits(mCap * s.rows)
    requires GemmSums(sums, s, l, bank, x, mCap, row0, 32)
    requires GemmWrote(y[..], was, s, l, bank, x, mCap, resid, row0, row0 + r, 0)
    modifies y
    ensures GemmWrote(y[..], was, s, l, bank, x, mCap, resid, row0, row0 + r + 1, 0)
  {
    var row := row0 + r;
    for m := 0 to mCap
      invariant GemmSums(sums, s, l, bank, x, mCap, row0, 32)
      invariant GemmWrote(y[..], was, s, l, bank, x, mCap, resid, row0, row, m)
    {
      if row < s.rows {
        GemmSumIsDot(s, l, bank, x, mCap, row0, r, m);
        CellFits(mCap, s.rows, m, row);
        var sum := sums[r, m];
        if resid.Resid? {
          sum := sum + resid.value[Cell(m, s.rows, row)];
        }
        GemmPut(s, l, bank, x, mCap, y, resid, row0, row, m, sum, was);
      }
    }
  }

  // q4_simd_gemm: min(M, 8) activation rows, the four output rows of simdgroup sgid of threadgroup tgid.
  method SimdGemm(s: Shape, l: Q4Layout, bank: Bank, x: seq<real>, M: nat, y: array<real>, resid: Resid, tgid: nat, sgid: nat)
    requires s.Valid() && Holds(s, l, bank) && XFits(x, s.cols, Min(M, GEMM_MAX_M)) && sgid < SIMD_SG_PER_TG
    requires Min(M, GEMM_MAX_M) * s.rows <= y.Length && resid.Fits(Min(M, GEMM_MAX_M) * s.rows)
    modifies y
    ensures var row0 := (tgid * SIMD_SG_PER_TG + sgid) * SIMD_ROWS;
            GemmWrote(y[..], old(y[..]), s, l, bank, x, Min(M, GEMM_MAX_M), resid, row0, row0 + 4, 0)
  {
    ghost var was := y[..];
    var mCap := Min(M, GEMM_MAX_M);
    if mCap == 0 {
      return;
    }
    var row0 := (tgid * SIMD_SG_PER_TG + sgid) * SIMD_ROWS;
    GemmNone(was, s, l, bank, x, mCap, resid, row0);
    if row0 >= s.rows {
      return;
    }
    var sums := GemmLanes(s, l, bank, x, mCap, row0);
    for r := 0 to 4
      invariant GemmSums(sums, s, l, bank, x, mCap, row0, 32)
      invariant GemmWrote(y[..], was, s, l, bank, x, mCap, resid, row0, row0 + r, 0)
    {
      GemmStore(s, l, bank, x, mCap, y, resid, row0, r, sums, was);
    }
  }
}
