// The simdgroup-cooperative Q4 GEMV and GEMM (kernels/gemv_q4_mlx_simd.h, kernels/gemm_q4_mlx_simd.h): lanes split
// the columns, four rows a simdgroup, in either layout.
module Q4Gemv {
  import opened Common
  import opened Layout
  import opened Q4Dot

  // ---------- how the lanes split a row ----------

  // Columns 16j, ..., 16j + 15.
  function Chunk(w: seq<real>, x: seq<real>, j: nat): real
    requires 16 * j + 16 <= |w| && 16 * j + 16 <= |x|
  {
    DotRange(w, x, 16 * j, 16 * j + 16)
  }

  // What `lane` has added after t blocks of 512 columns.
  function LaneSum(w: seq<real>, x: seq<real>, packs: nat, lane: nat, t: nat): real
    requires 16 * packs <= |w| && 16 * packs <= |x|
  {
    if t == 0 then 0.0
    else LaneSum(w, x, packs, lane, t - 1) +
         var j := 32 * (t - 1) + lane;
         if j < packs then Chunk(w, x, j) else 0.0
  }

  // simd_sum over the first `lanes` lanes.
  function LanesSum(w: seq<real>, x: seq<real>, packs: nat, lanes: nat, t: nat): real
    requires 16 * packs <= |w| && 16 * packs <= |x|
  {
    if lanes == 0 then 0.0 else LanesSum(w, x, packs, lanes - 1, t) + LaneSum(w, x, packs, lanes - 1, t)
  }

  // One more block: the lanes add the next columns, in lane order.
  lemma {:induction false} NextBlock(w: seq<real>, x: seq<real>, packs: nat, lanes: nat, t: nat)
    requires 16 * packs <= |w| && 16 * packs <= |x|
    ensures LanesSum(w, x, packs, lanes, t + 1) ==
            LanesSum(w, x, packs, lanes, t) + DotRange(w, x, 16 * Min(32 * t, packs), 16 * Min(32 * t + lanes, packs))
  {
    if lanes > 0 {
      NextBlock(w, x, packs, lanes - 1, t);
      var from := 16 * Min(32 * t, packs);
      var j := 32 * t + (lanes - 1);
      if j < packs {
        DotSplit(w, x, from, 16 * j, 16 * j + 16);
      }
    }
  }

  lemma {:induction false} NoBlocks(w: seq<real>, x: seq<real>, packs: nat, lanes: nat)
    requires 16 * packs <= |w| && 16 * packs <= |x|
    ensures LanesSum(w, x, packs, lanes, 0) == 0.0
  {
    if lanes > 0 {
      NoBlocks(w, x, packs, lanes - 1);
    }
  }

  // After t blocks the 32 lanes together have the first 512 t columns, each once.
  lemma {:induction false} BlocksSum(w: seq<real>, x: seq<real>, packs: nat, t: nat)
    requires 16 * packs <= |w| && 16 * packs <= |x|
    ensures LanesSum(w, x, packs, 32, t) == DotRange(w, x, 0, 16 * Min(32 * t, packs))
  {
    if t == 0 {
      NoBlocks(w, x, packs, 32);
    } else {
      BlocksSum(w, x, packs, t - 1);
      NextBlock(w, x, packs, 32, t - 1);
      DotSplit(w, x, 0, 16 * Min(32 * (t - 1), packs), 16 * Min(32 * t, packs));
    }
  }

  // Blocks of 512 columns.
  function Blocks(cols: nat): nat { (cols + 511) / 512 }

  // All lanes, all blocks: the whole row.
  lemma {:induction false} LanesAreDot(s: Shape, l: Q4Layout, bank: Bank, x: seq<real>, row: nat)
    requires s.Valid() && Holds(s, l, bank) && row < s.rows && s.cols <= |x|
    ensures 16 * (s.cols / 16) == s.cols
    ensures LanesSum(Weights(s, l, bank, row), x, s.cols / 16, 32, Blocks(s.cols)) == Dot(s, l, bank, x, row)
  {
    var packs, _, _ := Columns(s);
    BlocksSum(Weights(s, l, bank, row), x, packs, Blocks(s.cols));
  }

  // ---------- addresses ----------

  // The row-major pointers stand at pack j of row row0; the Interleaved4 offsets are those of pack j of its tile.
  ghost predicate PointsAt(s: Shape, l: Q4Layout, row0: nat, j: nat, ws: nat, sbr: nat, i4w: nat, i4sb: nat)
    requires s.Valid()
  {
    match l
    case RowMajor => ws == Cell(row0, s.cols / 2, 8 * j) && sbr == Cell(row0, s.Groups(), Group(s, 16 * j))
    case Interleaved4 =>
      i4w == Cell(row0 / 4, s.cols / 16, j) * 4 * 8 && i4sb == Cell(row0 / 4, s.Groups(), Group(s, 16 * j)) * 4
  }

  lemma {:induction false} NextRow(row0: nat, r: nat, width: nat, at: nat)
    ensures Cell(row0 + r, width, at) == Cell(row0, width, at) + r * width
  {
  }

  lemma {:induction false} RowOfTile(row0: nat, r: nat)
    requires row0 % 4 == 0 && r < 4
    ensures (row0 + r) / 4 == row0 / 4 && (row0 + r) % 4 == r
  {
  }

  // One row's pack: address it, and take its lane dot.
  method AddTerm(s: Shape, l: Q4Layout, bank: Bank, ghost x: seq<real>, row0: nat, r: nat, ghost j: nat, ws: nat, sbr: nat,
                 i4w: nat, i4sb: nat, xt: seq<real>, xsum: real) returns (v: real)
    requires s.Valid() && Holds(s, l, bank) && row0 % 4 == 0 && r < 4 && row0 + r < s.rows && j < s.cols / 16 && s.cols <= |x|
    requires PointsAt(s, l, row0, j, ws, sbr, i4w, i4sb)
    requires 16 * j + 16 <= s.cols && Prescaled(xt, x[16 * j..16 * j + 16]) && xsum == SumOf(x, 16 * j, 16 * j + 16)
    ensures v == Chunk(Weights(s, l, bank, row0 + r), x, j)
  {
    var gpr, rowBytes := s.Groups(), s.cols / 2;
    ghost var row := row0 + r;
    RowOfTile(row0, r);
    NextRow(row0, r, rowBytes, 8 * j);
    NextRow(row0, r, gpr, Group(s, 16 * j));
    GroupOf(s, 16 * j);
    SbFits(s, l, bank, row, Group(s, 16 * j));
    ByteFits(s, l, bank, row, j, 7);
    var sbAt := if l == RowMajor then sbr + r * gpr else i4sb + r;
    var wp := if l == RowMajor then ws + r * rowBytes else i4w + r * 8;
    assert sbAt == SbAt(s, l, row, Group(s, 16 * j)) && wp == ByteAt(s, l, row, j, 0);
    v := Qdot16(bank.packed, wp, xt, x[16 * j..16 * j + 16], bank.sb[sbAt], xsum);
    PackDotIsRange(s, l, bank, x, row, j);
  }

  // The group index moves by 512 / gs a block.
  lemma {:induction false} GroupWalk(s: Shape, lane: nat, t: nat)
    requires s.Valid()
    ensures Group(s, 16 * (32 * t + lane)) == Group(s, 16 * lane) + t * (SIMD_BLOCK / s.gs)
  {
    var _, _, step := Columns(s);
    var q, r := Group(s, 16 * lane), 16 * lane % s.gs;
    assert 16 * lane == q * s.gs + r;
    assert 512 == step * s.gs;
    BlockColumns(q, t, step, s.gs);
    QuotientOf(16 * (32 * t + lane), q + t * step, s.gs, r);
  }

  lemma {:induction false} BlockColumns(q: nat, t: nat, step: nat, gs: nat)
    requires 512 == step * gs
    ensures (q + t * step) * gs == q * gs + 512 * t
  {
    assert (t * step) * gs == t * (step * gs);
  }

  // acc[b, r] is lane sum t of row row0 + r of bank b.
  ghost predicate AccIs(acc: array2<real>, s: Shape, l: Q4Layout, banks: seq<Bank>, x: seq<real>, row0: nat, lane: nat, t: nat)
    reads acc
    requires s.Valid() && s.cols <= |x| && forall b :: 0 <= b < |banks| ==> Holds(s, l, banks[b])
  {
    acc.Length0 == |banks| && acc.Length1 == 4
    && forall b, r :: 0 <= b < |banks| && 0 <= r < 4 && row0 + r < s.rows ==>
         acc[b, r] == LaneAt(s, l, banks, x, row0, b, r, lane, t)
  }

  // Row row0 + r of bank b, as one lane has it after t blocks.
  ghost function LaneAt(s: Shape, l: Q4Layout, banks: seq<Bank>, x: seq<real>, row0: nat, b: nat, r: nat, lane: nat, t: nat): real
    requires s.Valid() && b < |banks| && Holds(s, l, banks[b]) && row0 + r < s.rows && s.cols <= |x|
  {
    Columns16(s);
    LaneSum(Weights(s, l, banks[b], row0 + r), x, s.cols / 16, lane, t)
  }

  lemma {:induction false} Columns16(s: Shape)
    requires s.Valid()
    ensures 16 * (s.cols / 16) == s.cols
  {
    var _, _, _ := Columns(s);
  }

  // What block t adds to one row.
  lemma {:induction false} NextLaneAt(s: Shape, l: Q4Layout, banks: seq<Bank>, x: seq<real>, row0: nat, b: nat, r: nat, lane: nat, t: nat)
    requires s.Valid() && b < |banks| && Holds(s, l, banks[b]) && row0 + r < s.rows && s.cols <= |x|
    ensures 16 * (s.cols / 16) == s.cols
    ensures LaneAt(s, l, banks, x, row0, b, r, lane, t + 1) ==
            LaneAt(s, l, banks, x, row0, b, r, lane, t)
            + if 32 * t + lane < s.cols / 16 then Chunk(Weights(s, l, banks[b], row0 + r), x, 32 * t + lane) else 0.0
  {
    Columns16(s);
  }

  // One K block of one lane, once its sixteen elements of x are loaded: rows past the end are skipped.
  method AddPack(s: Shape, l: Q4Layout, banks: seq<Bank>, ghost x: seq<real>, row0: nat, ghost lane: nat, ghost t: nat,
                 ws: nat, sbr: nat, i4w: nat, i4sb: nat, xt: seq<real>, xsum: real, acc: array2<real>)
    requires s.Valid() && s.cols <= |x| && forall b :: 0 <= b < |banks| ==> Holds(s, l, banks[b])
    requires row0 % 4 == 0 && 32 * t + lane < s.cols / 16 && 16 * (32 * t + lane) + 16 <= s.cols
    requires PointsAt(s, l, row0, 32 * t + lane, ws, sbr, i4w, i4sb)
    requires Prescaled(xt, x[16 * (32 * t + lane)..16 * (32 * t + lane) + 16])
    requires xsum == SumOf(x, 16 * (32 * t + lane), 16 * (32 * t + lane) + 16)
    requires AccIs(acc, s, l, banks, x, row0, lane, t)
    modifies acc
    ensures AccIs(acc, s, l, banks, x, row0, lane, t + 1)
  {
    for r := 0 to 4
      invariant AccUpTo(acc, s, l, banks, x, row0, lane, t, r, 0)
    {
      if row0 + r >= s.rows {
        break;
      }
      AddRow(s, l, banks, x, row0, r, lane, t, ws, sbr, i4w, i4sb, xt, xsum, acc);
    }
  }

  // Rows before r have block t, and of row r the banks before b.
  ghost predicate AccUpTo(acc: array2<real>, s: Shape, l: Q4Layout, banks: seq<Bank>, x: seq<real>, row0: nat, lane: nat,
                          t: nat, r: nat, b: nat)
    reads acc
    requires s.Valid() && s.cols <= |x| && forall b :: 0 <= b < |banks| ==> Holds(s, l, banks[b])
  {
    acc.Length0 == |banks| && acc.Length1 == 4
    && forall b', i :: 0 <= b' < |banks| && 0 <= i < 4 && row0 + i < s.rows ==>
         acc[b', i] == LaneAt(s, l, banks, x, row0, b', i, lane, if i < r || (i == r && b' < b) then t + 1 else t)
  }

  method AddRow(s: Shape, l: Q4Layout, banks: seq<Bank>, ghost x: seq<real>, row0: nat, r: nat, ghost lane: nat, ghost t: nat,
                ws: nat, sbr: nat, i4w: nat, i4sb: nat, xt: seq<real>, xsum: real, acc: array2<real>)
    requires s.Valid() && s.cols <= |x| && forall b :: 0 <= b < |banks| ==> Holds(s, l, banks[b])
    requires row0 % 4 == 0 && r < 4 && row0 + r < s.rows
    requires 32 * t + lane < s.cols / 16 && 16 * (32 * t + lane) + 16 <= s.cols
    requires PointsAt(s, l, row0, 32 * t + lane, ws, sbr, i4w, i4sb)
    requires Prescaled(xt, x[16 * (32 * t + lane)..16 * (32 * t + lane) + 16])
    requires xsum == SumOf(x, 16 * (32 * t + lane), 16 * (32 * t + lane) + 16)
    requires AccUpTo(acc, s, l, banks, x, row0, lane, t, r, 0)
    modifies acc
    ensures AccUpTo(acc, s, l, banks, x, row0, lane, t, r + 1, 0)
  {
    for b := 0 to |banks|
      invariant AccUpTo(acc, s, l, banks, x, row0, lane, t, r, b)
    {
      var v := AddTerm(s, l, banks[b], x, row0, r, 32 * t + lane, ws, sbr, i4w, i4sb, xt, xsum);
      NextLaneAt(s, l, banks, x, row0, b, r, lane, t);
      acc[b, r] := acc[b, r] + v;
    }
  }

  // Where the walking pointers stand at block t.
  ghost predicate Walked(s: Shape, l: Q4Layout, row0: nat, lane: nat, t: nat, ws: nat, sbr: nat, xr: nat)
    requires s.Valid()
  {
    l == RowMajor ==>
      xr == 16 * (32 * t + lane) && ws == Cell(row0, s.cols / 2, 8 * (32 * t + lane))
      && sbr == Cell(row0, s.Groups(), Group(s, 16 * (32 * t + lane)))
  }

  lemma {:induction false} WalkOn(s: Shape, l: Q4Layout, row0: nat, lane: nat, t: nat, ws: nat, sbr: nat, xr: nat)
    requires s.Valid() && l == RowMajor && Walked(s, l, row0, lane, t, ws, sbr, xr)
    ensures Walked(s, l, row0, lane, t + 1, ws + SIMD_BLOCK / 2, sbr + SIMD_BLOCK / s.gs, xr + SIMD_BLOCK)
  {
    GroupWalk(s, lane, t);
    GroupWalk(s, lane, t + 1);
    OneMoreStep(t, SIMD_BLOCK / s.gs);
  }

  lemma {:induction false} OneMoreStep(t: nat, step: nat)
    ensures (t + 1) * step == t * step + step
  {
  }

  // Where they start.
  method WalkStart(s: Shape, l: Q4Layout, row0: nat, lane: nat) returns (ws: nat, sbr: nat, xr: nat)
    requires s.Valid()
    ensures Walked(s, l, row0, lane, 0, ws, sbr, xr)
  {
    var laneCol0 := lane * SIMD_VPT;
    ws := row0 * (s.cols / 2) + laneCol0 / 2;
    sbr := row0 * s.Groups() + Group(s, laneCol0);
    xr := laneCol0;
  }

  // A lane past the last pack adds nothing.
  lemma {:induction false} IdleBlock(acc: array2<real>, s: Shape, l: Q4Layout, banks: seq<Bank>, x: seq<real>, row0: nat, lane: nat, t: nat)
    requires s.Valid() && s.cols <= |x| && forall b :: 0 <= b < |banks| ==> Holds(s, l, banks[b])
    requires 32 * t + lane >= s.cols / 16 && AccIs(acc, s, l, banks, x, row0, lane, t)
    ensures AccIs(acc, s, l, banks, x, row0, lane, t + 1)
  {
    forall b, r | 0 <= b < |banks| && 0 <= r < 4 && row0 + r < s.rows
      ensures acc[b, r] == LaneAt(s, l, banks, x, row0, b, r, lane, t + 1)
    {
      NextLaneAt(s, l, banks, x, row0, b, r, lane, t);
    }
  }

  // A pack is whole or absent.
  lemma {:induction false} PackInside(s: Shape, j: nat)
    requires s.Valid()
    ensures 16 * j + 16 <= s.cols <==> j < s.cols / 16
    ensures 16 * j / 16 == j
  {
    Columns16(s);
  }

  lemma {:induction false} PointsHere(s: Shape, l: Q4Layout, row0: nat, j: nat, lane: nat, t: nat, col: nat, ws: nat, sbr: nat, xr: nat,
                                      i4w: nat, i4sb: nat)
    requires s.Valid() && row0 % 4 == 0 && j == 32 * t + lane && col == 16 * j && Walked(s, l, row0, lane, t, ws, sbr, xr)
    requires i4w == (row0 / 4 * (s.cols / 16) + col / 16) * 4 * 8 && i4sb == (row0 / 4 * s.Groups() + Group(s, col)) * 4
    ensures PointsAt(s, l, row0, j, ws, sbr, i4w, i4sb)
  {
  }

  // One K block of one lane.
  method LaneBlock(s: Shape, l: Q4Layout, banks: seq<Bank>, x: seq<real>, row0: nat, lane: nat, ghost t: nat, col: nat,
                   ws: nat, sbr: nat, xr: nat, xt: array<real>, acc: array2<real>)
    requires s.Valid() && s.cols <= |x| && forall b :: 0 <= b < |banks| ==> Holds(s, l, banks[b])
    requires row0 % 4 == 0 && col == 16 * (32 * t + lane) && xt.Length == 16
    requires Walked(s, l, row0, lane, t, ws, sbr, xr) && AccIs(acc, s, l, banks, x, row0, lane, t)
    modifies xt, acc
    ensures AccIs(acc, s, l, banks, x, row0, lane, t + 1)
  {
    ghost var j := 32 * t + lane;
    PackInside(s, j);
    if col + SIMD_VPT <= s.cols {
      var xsum := LoadX16(x, if l == RowMajor then xr else col, xt);
      var tile, g, pack2 := row0 / 4, Group(s, col), col / 16;
      var i4w := (tile * (s.cols / 16) + pack2) * 4 * 8;
      var i4sb := (tile * s.Groups() + g) * 4;
      PointsHere(s, l, row0, j, lane, t, col, ws, sbr, xr, i4w, i4sb);
      AddPack(s, l, banks, x, row0, lane, t, ws, sbr, i4w, i4sb, xt[..], xsum, acc);
    } else {
      IdleBlock(acc, s, l, banks, x, row0, lane, t);
    }
  }

  lemma {:induction false} BlockCount(cols: nat, t: nat)
    requires t <= Blocks(cols)
    ensures 512 * t < cols ==> t + 1 <= Blocks(cols)
    ensures cols <= 512 * t ==> t == Blocks(cols)
  {
  }

  // No block yet: every register is zero.
  lemma {:induction false} AccStart(acc: array2<real>, s: Shape, l: Q4Layout, banks: seq<Bank>, x: seq<real>, row0: nat, lane: nat)
    requires s.Valid() && s.cols <= |x| && forall b :: 0 <= b < |banks| ==> Holds(s, l, banks[b])
    requires acc.Length0 == |banks| && acc.Length1 == 4 && forall b, r :: 0 <= b < |banks| && 0 <= r < 4 ==> acc[b, r] == 0.0
    ensures AccIs(acc, s, l, banks, x, row0, lane, 0)
  {
  }

  // The registers and the pointers of a lane after t blocks.
  ghost predicate LaneAfter(acc: array2<real>, s: Shape, l: Q4Layout, banks: seq<Bank>, x: seq<real>, row0: nat, lane: nat, t: nat,
                            ws: nat, sbr: nat, xr: nat)
    reads acc
    requires s.Valid() && s.cols <= |x| && forall b :: 0 <= b < |banks| ==> Holds(s, l, banks[b])
  {
    AccIs(acc, s, l, banks, x, row0, lane, t) && Walked(s, l, row0, lane, t, ws, sbr, xr)
  }

  // One block, and the row-major pointers on to the next.
  method LaneStep(s: Shape, l: Q4Layout, banks: seq<Bank>, x: seq<real>, row0: nat, lane: nat, ghost t: nat, col: nat,
                  ws: nat, sbr: nat, xr: nat, xt: array<real>, acc: array2<real>) returns (ws': nat, sbr': nat, xr': nat)
    requires s.Valid() && s.cols <= |x| && forall b :: 0 <= b < |banks| ==> Holds(s, l, banks[b])
    requires row0 % 4 == 0 && col == 16 * (32 * t + lane) && xt.Length == 16
    requires LaneAfter(acc, s, l, banks, x, row0, lane, t, ws, sbr, xr)
    modifies xt, acc
    ensures LaneAfter(acc, s, l, banks, x, row0, lane, t + 1, ws', sbr', xr')
  {
    LaneBlock(s, l, banks, x, row0, lane, t, col, ws, sbr, xr, xt, acc);
    ws', sbr', xr' := ws, sbr, xr;
    if l == RowMajor {
      WalkOn(s, l, row0, lane, t, ws, sbr, xr);
      ws', sbr', xr' := ws + SIMD_BLOCK / 2, sbr + SIMD_BLOCK / s.gs, xr + SIMD_BLOCK;
    }
  }

  // The lane's column in the block at k0.
  function ColumnOf(k0: nat, ghost t: nat, lane: nat): (col: nat)
    requires k0 == 512 * t
    ensures col == 16 * (32 * t + lane)
  {
    k0 + lane * SIMD_VPT
  }

  // All blocks of one lane, in registers that start at zero.
  method LaneBlocks(s: Shape, l: Q4Layout, banks: seq<Bank>, x: seq<real>, row0: nat, lane: nat, xt: array<real>, acc: array2<real>)
    requires s.Valid() && s.cols <= |x| && forall b :: 0 <= b < |banks| ==> Holds(s, l, banks[b])
    requires row0 % 4 == 0 && lane < 32 && xt.Length == 16 && AccIs(acc, s, l, banks, x, row0, lane, 0)
    modifies xt, acc
    ensures AccIs(acc, s, l, banks, x, row0, lane, Blocks(s.cols))
  {
    var ws: nat, sbr: nat, xr: nat := WalkStart(s, l, row0, lane);
    var k0: nat := 0;
    ghost var t: nat := 0;
    while k0 < s.cols
      invariant k0 == 512 * t && t <= Blocks(s.cols) && LaneAfter(acc, s, l, banks, x, row0, lane, t, ws, sbr, xr)
      decreases s.cols - k0
    {
      BlockCount(s.cols, t);
      var col := ColumnOf(k0, t, lane);
      ws, sbr, xr := LaneStep(s, l, banks, x, row0, lane, t, col, ws, sbr, xr, xt, acc);
      k0 := k0 + SIMD_BLOCK;
      t := t + 1;
    }
    BlockCount(s.cols, t);
  }

  // One lane: the row-major pointers walk, the Interleaved4 offsets are computed from the column.
  method Lane(s: Shape, l: Q4Layout, banks: seq<Bank>, x: seq<real>, row0: nat, lane: nat) returns (acc: array2<real>)
    requires s.Valid() && s.cols <= |x| && forall b :: 0 <= b < |banks| ==> Holds(s, l, banks[b])
    requires row0 % 4 == 0 && lane < 32
    ensures fresh(acc) && AccIs(acc, s, l, banks, x, row0, lane, Blocks(s.cols))
  {
    acc := new real[|banks|, 4]((_, _) => 0.0);
    AccStart(acc, s, l, banks, x, row0, lane);
    var xt := new real[16](_ => 0.0);
    LaneBlocks(s, l, banks, x, row0, lane, xt, acc);
  }

  // ---------- a simdgroup ----------

  function Times(a: real, b: real): (p: real)
    ensures p == a * b
  {
    a * b
  }

  // What a finished row becomes; `act` and `narrow` are the activation and the storage rounding.
  datatype Epilogue = Store | AddResid | GateUp(act: real -> real, narrow: real -> real)
  {
    function NB(): nat { if GateUp? then 2 else 1 }

    function Finish(sum0: real, sum1: real, resid: real): real {
      match this
      case Store => sum0
      case AddResid => sum0 + resid
      case GateUp(act, narrow) => narrow(Times(act(sum0), sum1))
    }
  }

  // Row row0 + r of bank b, summed over the first `lanes` lanes.
  ghost function SumAt(s: Shape, l: Q4Layout, banks: seq<Bank>, x: seq<real>, row0: nat, b: nat, r: nat, lanes: nat): real
    requires s.Valid() && b < |banks| && Holds(s, l, banks[b]) && row0 + r < s.rows && s.cols <= |x|
  {
    Columns16(s);
    LanesSum(Weights(s, l, banks[b], row0 + r), x, s.cols / 16, lanes, Blocks(s.cols))
  }

  ghost function DotAt(s: Shape, l: Q4Layout, banks: seq<Bank>, x: seq<real>, row0: nat, b: nat, r: nat): real
    requires s.Valid() && b < |banks| && Holds(s, l, banks[b]) && row0 + r < s.rows && s.cols <= |x|
  {
    Dot(s, l, banks[b], x, row0 + r)
  }

  // sums[b, r] is the sum of the first `lanes` lanes.
  ghost predicate SumsAre(sums: array2<real>, s: Shape, l: Q4Layout, banks: seq<Bank>, x: seq<real>, row0: nat, lanes: nat)
    reads sums
    requires s.Valid() && s.cols <= |x| && forall b :: 0 <= b < |banks| ==> Holds(s, l, banks[b])
  {
    sums.Length0 == |banks| && sums.Length1 == 4
    && forall b, r :: 0 <= b < |banks| && 0 <= r < 4 && row0 + r < s.rows ==>
         sums[b, r] == SumAt(s, l, banks, x, row0, b, r, lanes)
  }

  ghost predicate DotsAre(sums: array2<real>, s: Shape, l: Q4Layout, banks: seq<Bank>, x: seq<real>, row0: nat)
    reads sums
    requires s.Valid() && s.cols <= |x| && forall b :: 0 <= b < |banks| ==> Holds(s, l, banks[b])
  {
    sums.Length0 == |banks| && sums.Length1 == 4
    && forall b, r :: 0 <= b < |banks| && 0 <= r < 4 && row0 + r < s.rows ==> sums[b, r] == DotAt(s, l, banks, x, row0, b, r)
  }

  lemma {:induction false} NextSum(s: Shape, l: Q4Layout, banks: seq<Bank>, x: seq<real>, row0: nat, b: nat, r: nat, lane: nat)
    requires s.Valid() && b < |banks| && Holds(s, l, banks[b]) && row0 + r < s.rows && s.cols <= |x|
    ensures SumAt(s, l, banks, x, row0, b, r, lane + 1) ==
            SumAt(s, l, banks, x, row0, b, r, lane) + LaneAt(s, l, banks, x, row0, b, r, lane, Blocks(s.cols))
  {
  }

  // simd_sum takes one more lane's registers.
  method SumLane(s: Shape, l: Q4Layout, banks: seq<Bank>, x: seq<real>, row0: nat, lane: nat, sums: array2<real>)
    requires s.Valid() && s.cols <= |x| && forall b :: 0 <= b < |banks| ==> Holds(s, l, banks[b])
    requires row0 % 4 == 0 && lane < 32 && SumsAre(sums, s, l, banks, x, row0, lane)
    modifies sums
    ensures SumsAre(sums, s, l, banks, x, row0, lane + 1)
  {
    var acc := Lane(s, l, banks, x, row0, lane);
    forall b, r | 0 <= b < |banks| && 0 <= r < 4 && row0 + r < s.rows
      ensures sums[b, r] + acc[b, r] == SumAt(s, l, banks, x, row0, b, r, lane + 1)
    {
      NextSum(s, l, banks, x, row0, b, r, lane);
    }
    forall b, r | 0 <= b < |banks| && 0 <= r < 4 {
      sums[b, r] := sums[b, r] + acc[b, r];
    }
  }

  lemma {:induction false} SumsStart(sums: array2<real>, s: Shape, l: Q4Layout, banks: seq<Bank>, x: seq<real>, row0: nat)
    requires s.Valid() && s.cols <= |x| && forall b :: 0 <= b < |banks| ==> Holds(s, l, banks[b])
    requires sums.Length0 == |banks| && sums.Length1 == 4 && forall b, r :: 0 <= b < |banks| && 0 <= r < 4 ==> sums[b, r] == 0.0
    ensures SumsAre(sums, s, l, banks, x, row0, 0)
  {
    forall b, r | 0 <= b < |banks| && 0 <= r < 4 && row0 + r < s.rows ensures SumAt(s, l, banks, x, row0, b, r, 0) == 0.0 {
    }
  }

  lemma {:induction false} SumIsDot(s: Shape, l: Q4Layout, banks: seq<Bank>, x: seq<real>, row0: nat, b: nat, r: nat)
    requires s.Valid() && b < |banks| && Holds(s, l, banks[b]) && row0 + r < s.rows && s.cols <= |x|
    ensures SumAt(s, l, banks, x, row0, b, r, 32) == DotAt(s, l, banks, x, row0, b, r)
  {
    LanesAreDot(s, l, banks[b], x, row0 + r);
  }

  lemma {:induction false} SumsEnd(sums: array2<real>, s: Shape, l: Q4Layout, banks: seq<Bank>, x: seq<real>, row0: nat)
    requires s.Valid() && s.cols <= |x| && forall b :: 0 <= b < |banks| ==> Holds(s, l, banks[b])
    requires SumsAre(sums, s, l, banks, x, row0, 32)
    ensures DotsAre(sums, s, l, banks, x, row0)
  {
    forall b, r | 0 <= b < |banks| && 0 <= r < 4 && row0 + r < s.rows
      ensures SumAt(s, l, banks, x, row0, b, r, 32) == DotAt(s, l, banks, x, row0, b, r)
    {
      SumIsDot(s, l, banks, x, row0, b, r);
    }
  }

  method SimdSum(s: Shape, l: Q4Layout, banks: seq<Bank>, x: seq<real>, row0: nat) returns (sums: array2<real>)
    requires s.Valid() && s.cols <= |x| && forall b :: 0 <= b < |banks| ==> Holds(s, l, banks[b])
    requires row0 % 4 == 0
    ensures fresh(sums) && DotsAre(sums, s, l, banks, x, row0)
  {
    sums := new real[|banks|, 4]((_, _) => 0.0);
    SumsStart(sums, s, l, banks, x, row0);
    for lane := 0 to 32
      invariant fresh(sums) && SumsAre(sums, s, l, banks, x, row0, lane)
    {
      SumLane(s, l, banks, x, row0, lane, sums);
    }
    SumsEnd(sums, s, l, banks, x, row0);
  }

  // What row row0 + r of the output becomes.
  ghost function RowOut(s: Shape, l: Q4Layout, epi: Epilogue, banks: seq<Bank>, x: seq<real>, resid: seq<real>, row: nat): real
    requires s.Valid() && s.cols <= |x| && row < s.rows && |banks| == epi.NB()
    requires (forall b :: 0 <= b < |banks| ==> Holds(s, l, banks[b])) && (epi.AddResid? ==> s.rows <= |resid|)
  {
    epi.Finish(Dot(s, l, banks[0], x, row), Dot(s, l, banks[|banks| - 1], x, row), if epi.AddResid? then resid[row] else 0.0)
  }

  // Rows from, ..., to - 1 that exist are written; everything else is as it was.
  ghost predicate Wrote(now: seq<real>, was: seq<real>, s: Shape, l: Q4Layout, epi: Epilogue, banks: seq<Bank>, x: seq<real>,
                        resid: seq<real>, from: nat, to: nat)
    requires s.Valid() && s.cols <= |x| && |banks| == epi.NB()
    requires (forall b :: 0 <= b < |banks| ==> Holds(s, l, banks[b])) && (epi.AddResid? ==> s.rows <= |resid|)
  {
    |now| == |was| >= s.rows
    && forall i :: 0 <= i < |now| ==>
         now[i] == if from <= i < to && i < s.rows then RowOut(s, l, epi, banks, x, resid, i) else was[i]
  }

  // What the epilogue stores of a row's sums.
  method Finished(epi: Epilogue, sum0: real, sum1: real, resid: real) returns (v: real)
    ensures v == epi.Finish(sum0, sum1, resid)
  {
    if epi.Store? {
      v := sum0;
    } else if epi.AddResid? {
      v := sum0 + resid;
    } else {
      var mid := epi.act(sum0) * sum1;
      assert mid == Times(epi.act(sum0), sum1);
      v := epi.narrow(mid);
    }
  }

  method StoreRow(s: Shape, l: Q4Layout, epi: Epilogue, banks: seq<Bank>, ghost x: seq<real>, out: array<real>, resid: seq<real>,
                  row0: nat, r: nat, sums: array2<real>, ghost was: seq<real>)
    requires s.Valid() && s.cols <= |x| && |banks| == epi.NB() && r < 4
    requires (forall b :: 0 <= b < |banks| ==> Holds(s, l, banks[b])) && (epi.AddResid? ==> s.rows <= |resid|)
    requires DotsAre(sums, s, l, banks, x, row0) && Wrote(out[..], was, s, l, epi, banks, x, resid, row0, row0 + r)
    modifies out
    ensures Wrote(out[..], was, s, l, epi, banks, x, resid, row0, row0 + r + 1)
  {
    var row := row0 + r;
    if row < s.rows {
      assert sums[0, r] == DotAt(s, l, banks, x, row0, 0, r);
      assert sums[|banks| - 1, r] == DotAt(s, l, banks, x, row0, |banks| - 1, r);
      var v := Finished(epi, sums[0, r], sums[|banks| - 1, r], if epi.AddResid? then resid[row] else 0.0);
      out[row] := v;
    }
  }

  // v is what row `row` must become: the first bank's dot product, that and the residual, or the stored form of the
  // activation of the first bank's dot product (the gate) times the second bank's (the up projection).
  ghost predicate RowIs(v: real, s: Shape, l: Q4Layout, epi: Epilogue, banks: seq<Bank>, x: seq<real>, resid: seq<real>, row: nat)
    requires s.Valid() && s.cols <= |x| && row < s.rows && |banks| == epi.NB()
    requires (forall b :: 0 <= b < |banks| ==> Holds(s, l, banks[b])) && (epi.AddResid? ==> s.rows <= |resid|)
  {
    match epi
    case Store => v == Dot(s, l, banks[0], x, row)
    case AddResid => v == Dot(s, l, banks[0], x, row) + resid[row]
    case GateUp(act, narrow) => v == narrow(Times(act(Dot(s, l, banks[0], x, row)), Dot(s, l, banks[1], x, row)))
  }

  lemma {:induction false} RowOutIs(s: Shape, l: Q4Layout, epi: Epilogue, banks: seq<Bank>, x: seq<real>, resid: seq<real>, row: nat)
    requires s.Valid() && s.cols <= |x| && row < s.rows && |banks| == epi.NB()
    requires (forall b :: 0 <= b < |banks| ==> Holds(s, l, banks[b])) && (epi.AddResid? ==> s.rows <= |resid|)
    ensures RowIs(RowOut(s, l, epi, banks, x, resid, row), s, l, epi, banks, x, resid, row)
  {
  }

  // Scaling the second bank's dot product scales a gate/up row, since the activation is taken of the first bank's alone.
  lemma {:induction false} UpScales(epi: Epilogue, gate: real, up: real, up': real, c: real)
    requires epi.GateUp? && up' == c * up && forall v :: epi.narrow(v) == v
    ensures epi.Finish(gate, up', 0.0) == c * epi.Finish(gate, up, 0.0)
  {
    Factors(epi.act(gate), c, up, up');
  }

  lemma {:induction false} Factors(g: real, c: real, u: real, u': real)
    requires u' == c * u
    ensures g * u' == c * (g * u)
  {
  }

  // q4_simd_gemv: four rows from row0; nothing when row0 is past the end, and no row past the end ever.
  method SimdGemv(s: Shape, l: Q4Layout, epi: Epilogue, banks: seq<Bank>, x: seq<real>, out: array<real>, resid: seq<real>, row0: nat)
    requires s.Valid() && s.cols <= |x| && |banks| == epi.NB() && s.rows <= out.Length && row0 % 4 == 0
    requires (forall b :: 0 <= b < |banks| ==> Holds(s, l, banks[b])) && (epi.AddResid? ==> s.rows <= |resid|)
    modifies out
    ensures Wrote(out[..], old(out[..]), s, l, epi, banks, x, resid, row0, row0 + 4)
    ensures forall row: nat | row0 <= row < row0 + 4 && row < s.rows :: RowIs(out[row], s, l, epi, banks, x, resid, row)
    ensures forall i | 0 <= i < out.Length && !(row0 <= i < row0 + 4 && i < s.rows) :: out[i] == old(out[i])
  {
    if row0 >= s.rows {
      return;
    }
    ghost var was := out[..];
    var sums := SimdSum(s, l, banks, x, row0);
    for r := 0 to 4
      invariant DotsAre(sums, s, l, banks, x, row0)
      invariant Wrote(out[..], was, s, l, epi, banks, x, resid, row0, row0 + r)
    {
      StoreRow(s, l, epi, banks, x, out, resid, row0, r, sums, was);
    }
    forall row: nat | row0 <= row < row0 + 4 && row < s.rows ensures RowIs(out[row], s, l, epi, banks, x, resid, row) {
      RowOutIs(s, l, epi, banks, x, resid, row);
    }
  }
}
