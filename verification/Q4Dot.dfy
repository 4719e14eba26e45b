// The sixteen-nibble lane dot (kernels/q4_mlx_dot.h) and the quantized matrix it reads, in both layouts.
module Q4Dot {
  import opened Common
  import opened Layout

  const SIMD_SIZE: nat := 32
  const SIMD_ROWS: nat := 4
  const SIMD_SG_PER_TG: nat := 2
  const SIMD_VPT: nat := 16
  const SIMD_BLOCK: nat := 512

  datatype Q4Layout = RowMajor | Interleaved4

  // One group's bfloat2.
  datatype Affine = Affine(scale: real, bias: real)

  datatype Bank = Bank(packed: seq<Byte>, sb: seq<Affine>)

  // ---------- the matrix a bank stands for ----------

  // What the host accepts (src/nn.rs: a group divides the columns, is a multiple of 16 and divides 512).
  datatype Shape = Shape(rows: nat, cols: nat, gs: nat)
  {
    predicate Valid() { gs > 0 && gs % 16 == 0 && 512 % gs == 0 && cols % gs == 0 }

    function Groups(): nat
      requires gs > 0
    {
      cols / gs
    }

    // Rows a bank stores: every Interleaved4 tile is stored at full height.
    function Stored(l: Q4Layout): nat { if l == RowMajor then rows else (rows + 3) / 4 * 4 }
  }

  // Byte k of pack j of a row; a pack is eight bytes, sixteen nibbles.
  function ByteAt(s: Shape, l: Q4Layout, row: nat, j: nat, k: nat): nat {
    match l
    case RowMajor => Cell(row, s.cols / 2, 8 * j + k)
    case Interleaved4 => Cell(Cell(row / 4, s.cols / 16, j), 4, row % 4) * 8 + k
  }

  function SbAt(s: Shape, l: Q4Layout, row: nat, g: nat): nat
    requires s.gs > 0
  {
    match l
    case RowMajor => Cell(row, s.Groups(), g)
    case Interleaved4 => Cell(Cell(row / 4, s.Groups(), g), 4, row % 4)
  }

  // The bank holds every stored row.
  predicate Holds(s: Shape, l: Q4Layout, bank: Bank)
    requires s.gs > 0
  {
    |bank.packed| >= s.Stored(l) * (s.cols / 2) && |bank.sb| >= s.Stored(l) * s.Groups()
  }

  lemma {:induction false} Columns(s: Shape) returns (packs: nat, perGroup: nat, perBlock: nat)
    requires s.Valid()
    ensures s.cols == 16 * packs && s.cols / 2 == 8 * packs && s.cols / 16 == packs
    ensures s.gs == 16 * perGroup && perGroup > 0 && packs == perGroup * s.Groups() && 32 == perGroup * perBlock
    ensures perBlock == SIMD_BLOCK / s.gs
  {
    perGroup, perBlock := s.gs / 16, 512 / s.gs;
    packs := perGroup * s.Groups();
    assert s.cols == s.gs * s.Groups() && 512 == s.gs * perBlock;
    assert s.gs * s.Groups() == 16 * (perGroup * s.Groups());
    assert s.gs * perBlock == 16 * (perGroup * perBlock);
  }

  lemma {:induction false} InStored(row: nat, rows: nat)
    requires row < rows
    ensures row / 4 < (rows + 3) / 4 && (rows + 3) / 4 * 4 >= rows && row == row / 4 * 4 + row % 4
  {
  }

  lemma {:induction false} ByteFits(s: Shape, l: Q4Layout, bank: Bank, row: nat, j: nat, k: nat)
    requires s.Valid() && Holds(s, l, bank) && row < s.rows && j < s.cols / 16 && k < 8
    ensures ByteAt(s, l, row, j, k) < |bank.packed|
  {
    var packs, _, _ := Columns(s);
    if l == RowMajor {
      CellFits(s.rows, 8 * packs, row, 8 * j + k);
    } else {
      TileFits(s.rows, packs, row, j, 8, k);
    }
  }

  lemma {:induction false} SbFits(s: Shape, l: Q4Layout, bank: Bank, row: nat, g: nat)
    requires s.Valid() && Holds(s, l, bank) && row < s.rows && g < s.Groups()
    ensures SbAt(s, l, row, g) < |bank.sb|
  {
    if l == RowMajor {
      CellFits(s.rows, s.Groups(), row, g);
    } else {
      TileFits(s.rows, s.Groups(), row, g, 1, 0);
    }
  }

  // [tile][j][r0..r3], `unit` elements each.
  lemma {:induction false} TileFits(rows: nat, width: nat, row: nat, j: nat, unit: nat, k: nat)
    requires row < rows && j < width && k < unit
    ensures Cell(Cell(row / 4, width, j), 4, row % 4) * unit + k < (rows + 3) / 4 * 4 * (unit * width)
  {
    InStored(row, rows);
    var tiles := (rows + 3) / 4;
    CellFits(tiles, width, row / 4, j);
    CellFits(tiles * width, 4, Cell(row / 4, width, j), row % 4);
    CellFits(tiles * width * 4, unit, Cell(Cell(row / 4, width, j), 4, row % 4), k);
    Rearrange(tiles, width, unit);
  }

  lemma {:induction false} Rearrange(a: nat, b: nat, c: nat)
    ensures a * b * 4 * c == a * 4 * (c * b)
  {
    assert a * b * 4 * c == (a * 4) * b * c;
  }

  // The nibble of column c: low half first.
  function NibbleOf(byte: Byte, c: nat): nat { if c % 2 == 0 then byte % 16 else byte / 16 }

  function Nibble(s: Shape, l: Q4Layout, bank: Bank, row: nat, c: nat): nat
    requires s.Valid() && Holds(s, l, bank) && row < s.rows && c < s.cols
  {
    PackOf(s, c);
    ByteFits(s, l, bank, row, c / 16, c % 16 / 2);
    NibbleOf(bank.packed[ByteAt(s, l, row, c / 16, c % 16 / 2)], c)
  }

  lemma {:induction false} PackOf(s: Shape, c: nat)
    requires s.Valid() && c < s.cols
    ensures c / 16 < s.cols / 16
  {
    var packs, _, _ := Columns(s);
  }

  // The quantization group of column c.
  function Group(s: Shape, c: nat): nat
    requires s.gs > 0
  {
    c / s.gs
  }

  lemma {:induction false} GroupOf(s: Shape, c: nat)
    requires s.Valid() && c < s.cols
    ensures Group(s, c) < s.Groups()
  {
    assert s.Groups() * s.gs == s.cols;
    var q := c / s.gs;
    assert q * s.gs <= c;
    if q >= s.Groups() {
      MulMono(s.Groups(), q, s.gs);
    }
  }

  // scale * nibble + bias
  function Dequant(sb: Affine, nibble: nat): real { sb.scale * (nibble as real) + sb.bias }

  function Weight(s: Shape, l: Q4Layout, bank: Bank, row: nat, c: nat): real
    requires s.Valid() && Holds(s, l, bank) && row < s.rows && c < s.cols
  {
    Dequant(SbOf(s, l, bank, row, c), Nibble(s, l, bank, row, c))
  }

  // The scale and bias of column c's group.
  function SbOf(s: Shape, l: Q4Layout, bank: Bank, row: nat, c: nat): Affine
    requires s.Valid() && Holds(s, l, bank) && row < s.rows && c < s.cols
  {
    GroupOf(s, c);
    SbOfGroup(s, l, bank, row, Group(s, c))
  }

  function SbOfGroup(s: Shape, l: Q4Layout, bank: Bank, row: nat, g: nat): Affine
    requires s.Valid() && Holds(s, l, bank) && row < s.rows && g < s.Groups()
  {
    SbFits(s, l, bank, row, g);
    bank.sb[SbAt(s, l, row, g)]
  }

  // What a weight is made of: its group's scale times its nibble, the low one for an even column, plus the group's bias.
  ghost predicate Dequantized(w: real, byte: Byte, sb: Affine, c: nat) {
    w == sb.scale * ((if c % 2 == 0 then byte % 16 else byte / 16) as real) + sb.bias
  }

  lemma {:induction false} DequantIs(sb: Affine, byte: Byte, c: nat)
    ensures Dequantized(Dequant(sb, NibbleOf(byte, c)), byte, sb, c)
  {
  }

  lemma {:induction false} NibbleAt(s: Shape, l: Q4Layout, bank: Bank, row: nat, c: nat, at: nat)
    requires s.Valid() && Holds(s, l, bank) && row < s.rows && c < s.cols && at == ByteAt(s, l, row, c / 16, c % 16 / 2)
    ensures at < |bank.packed| && Nibble(s, l, bank, row, c) == NibbleOf(bank.packed[at], c)
  {
    PackOf(s, c);
    ByteFits(s, l, bank, row, c / 16, c % 16 / 2);
  }

  lemma {:induction false} WeightElements(s: Shape, l: Q4Layout, bank: Bank, row: nat, c: nat, at: nat, sbAt: nat)
    requires s.Valid() && Holds(s, l, bank) && row < s.rows && c < s.cols
    requires at == ByteAt(s, l, row, c / 16, c % 16 / 2) && sbAt == SbAt(s, l, row, Group(s, c))
    ensures at < |bank.packed| && sbAt < |bank.sb| && Dequantized(Weight(s, l, bank, row, c), bank.packed[at], bank.sb[sbAt], c)
  {
    NibbleAt(s, l, bank, row, c, at);
    GroupOf(s, c);
    SbFits(s, l, bank, row, Group(s, c));
    DequantIs(bank.sb[sbAt], bank.packed[at], c);
  }

  // Main: where they lie, row-major: two columns to a byte, gs columns to a scale and bias.
  lemma {:induction false} RowMajorElements(s: Shape, bank: Bank, row: nat, c: nat, at: nat, sbAt: nat)
    requires s.Valid() && Holds(s, RowMajor, bank) && row < s.rows && c < s.cols
    requires at == row * (s.cols / 2) + c / 2 && sbAt == row * (s.cols / s.gs) + c / s.gs
    ensures at < |bank.packed| && sbAt < |bank.sb|
    ensures Dequantized(Weight(s, RowMajor, bank, row, c), bank.packed[at], bank.sb[sbAt], c)
  {
    assert 8 * (c / 16) + c % 16 / 2 == c / 2;
    WeightElements(s, RowMajor, bank, row, c, at, sbAt);
  }

  // Main: in tiles of four rows, [tile][sixteen columns][row of the tile][eight bytes] and [tile][group][row of the tile].
  lemma {:induction false} InterleavedElements(s: Shape, bank: Bank, row: nat, c: nat, at: nat, sbAt: nat)
    requires s.Valid() && Holds(s, Interleaved4, bank) && row < s.rows && c < s.cols
    requires at == ((row / 4 * (s.cols / 16) + c / 16) * 4 + row % 4) * 8 + c % 16 / 2
    requires sbAt == (row / 4 * (s.cols / s.gs) + c / s.gs) * 4 + row % 4
    ensures at < |bank.packed| && sbAt < |bank.sb|
    ensures Dequantized(Weight(s, Interleaved4, bank, row, c), bank.packed[at], bank.sb[sbAt], c)
  {
    WeightElements(s, Interleaved4, bank, row, c, at, sbAt);
  }

  // Row `row` of the dequantized matrix.
  ghost function Weights(s: Shape, l: Q4Layout, bank: Bank, row: nat): (w: seq<real>)
    requires s.Valid() && Holds(s, l, bank) && row < s.rows
    ensures |w| == s.cols && forall c :: 0 <= c < s.cols ==> w[c] == Weight(s, l, bank, row, c)
  {
    seq(s.cols, c requires 0 <= c < s.cols => Weight(s, l, bank, row, c))
  }

  // sum over columns lo, ..., hi - 1 of w * x.
  function DotRange(w: seq<real>, x: seq<real>, lo: nat, hi: nat): real
    requires lo <= hi <= |w| && hi <= |x|
    decreases hi - lo
  {
    if lo == hi then 0.0 else DotRange(w, x, lo, hi - 1) + w[hi - 1] * x[hi - 1]
  }

  // That row times x: sum over all columns of (scale * nibble + bias) * x.
  ghost function Dot(s: Shape, l: Q4Layout, bank: Bank, x: seq<real>, row: nat): real
    requires s.Valid() && Holds(s, l, bank) && row < s.rows && s.cols <= |x|
  {
    DotRange(Weights(s, l, bank, row), x, 0, s.cols)
  }

  lemma {:induction false} DotSplit(w: seq<real>, x: seq<real>, lo: nat, mid: nat, hi: nat)
    requires lo <= mid <= hi <= |w| && hi <= |x|
    ensures DotRange(w, x, lo, hi) == DotRange(w, x, lo, mid) + DotRange(w, x, mid, hi)
    decreases hi
  {
    if hi > mid {
      DotSplit(w, x, lo, mid, hi - 1);
    }
  }

  // ---------- the same weights in the other layout ----------

  // i4 is the Interleaved4 repack of the row-major bank rm.
  ghost predicate IsRepack(s: Shape, rm: Bank, i4: Bank)
    requires s.Valid() && Holds(s, RowMajor, rm) && Holds(s, Interleaved4, i4)
  {
    (forall row, j, k :: 0 <= row < s.rows && 0 <= j < s.cols / 16 && 0 <= k < 8 ==> SameByte(s, rm, i4, row, j, k))
    && (forall row, g :: 0 <= row < s.rows && 0 <= g < s.Groups() ==> SameSb(s, rm, i4, row, g))
  }

  ghost predicate SameByte(s: Shape, rm: Bank, i4: Bank, row: nat, j: nat, k: nat)
    requires s.Valid() && Holds(s, RowMajor, rm) && Holds(s, Interleaved4, i4)
    requires row < s.rows && j < s.cols / 16 && k < 8
  {
    ByteFits(s, RowMajor, rm, row, j, k);
    ByteFits(s, Interleaved4, i4, row, j, k);
    rm.packed[ByteAt(s, RowMajor, row, j, k)] == i4.packed[ByteAt(s, Interleaved4, row, j, k)]
  }

  ghost predicate SameSb(s: Shape, rm: Bank, i4: Bank, row: nat, g: nat)
    requires s.Valid() && Holds(s, RowMajor, rm) && Holds(s, Interleaved4, i4)
    requires row < s.rows && g < s.Groups()
  {
    SbOfGroup(s, RowMajor, rm, row, g) == SbOfGroup(s, Interleaved4, i4, row, g)
  }

  // Element a of an Interleaved4 buffer, `width` units to a row: which row, which unit.
  function TileRow(a: nat, width: nat): nat
    requires width > 0
  {
    a / 4 / width * 4 + a % 4
  }

  function TileUnit(a: nat, width: nat): nat
    requires width > 0
  {
    a / 4 % width
  }

  lemma {:induction false} TileDecode(row: nat, j: nat, width: nat)
    requires j < width
    ensures TileRow(Cell(Cell(row / 4, width, j), 4, row % 4), width) == row
    ensures TileUnit(Cell(Cell(row / 4, width, j), 4, row % 4), width) == j
  {
    var v := Cell(row / 4, width, j);
    QuotientOf(v, row / 4, width, j);
    assert v == v / width * width + v % width;
  }

  // The repack itself; the padding rows of the last tile are zeros.
  function Repack(s: Shape, rm: Bank): (i4: Bank)
    requires s.Valid() && Holds(s, RowMajor, rm)
    ensures Holds(s, Interleaved4, i4)
  {
    Bank(seq(s.Stored(Interleaved4) * (s.cols / 2), a requires 0 <= a => RepackByte(s, rm, a)),
         seq(s.Stored(Interleaved4) * s.Groups(), a requires 0 <= a => RepackSb(s, rm, a)))
  }

  function RepackByte(s: Shape, rm: Bank, a: nat): Byte
    requires s.Valid()
  {
    var packs := s.cols / 16;
    if packs == 0 then 0
    else
      var at := ByteAt(s, RowMajor, TileRow(a / 8, packs), TileUnit(a / 8, packs), a % 8);
      if TileRow(a / 8, packs) < s.rows && at < |rm.packed| then rm.packed[at] else 0
  }

  function RepackSb(s: Shape, rm: Bank, a: nat): Affine
    requires s.Valid()
  {
    if s.Groups() == 0 then Affine(0.0, 0.0)
    else
      var at := SbAt(s, RowMajor, TileRow(a, s.Groups()), TileUnit(a, s.Groups()));
      if TileRow(a, s.Groups()) < s.rows && at < |rm.sb| then rm.sb[at] else Affine(0.0, 0.0)
  }

  lemma {:induction false} RepackedByte(s: Shape, rm: Bank, row: nat, j: nat, k: nat)
    requires s.Valid() && Holds(s, RowMajor, rm) && row < s.rows && j < s.cols / 16 && k < 8
    ensures SameByte(s, rm, Repack(s, rm), row, j, k)
  {
    var i4 := Repack(s, rm);
    ByteFits(s, RowMajor, rm, row, j, k);
    ByteFits(s, Interleaved4, i4, row, j, k);
    var u := Cell(Cell(row / 4, s.cols / 16, j), 4, row % 4);
    TileDecode(row, j, s.cols / 16);
    RepackByteAt(s, rm, u, row, j, k);
    RepackedAt(s, rm, ByteAt(s, Interleaved4, row, j, k));
  }

  lemma {:induction false} RepackedAt(s: Shape, rm: Bank, a: nat)
    requires s.Valid() && Holds(s, RowMajor, rm) && a < |Repack(s, rm).packed|
    ensures Repack(s, rm).packed[a] == RepackByte(s, rm, a)
  {
  }

  lemma {:induction false} RepackByteAt(s: Shape, rm: Bank, u: nat, row: nat, j: nat, k: nat)
    requires s.Valid() && row < s.rows && j < s.cols / 16 && k < 8
    requires TileRow(u, s.cols / 16) == row && TileUnit(u, s.cols / 16) == j && ByteAt(s, RowMajor, row, j, k) < |rm.packed|
    ensures RepackByte(s, rm, u * 8 + k) == rm.packed[ByteAt(s, RowMajor, row, j, k)]
  {
    assert (u * 8 + k) / 8 == u && (u * 8 + k) % 8 == k;
  }

  lemma {:induction false} RepackedSb(s: Shape, rm: Bank, row: nat, g: nat)
    requires s.Valid() && Holds(s, RowMajor, rm) && row < s.rows && g < s.Groups()
    ensures SameSb(s, rm, Repack(s, rm), row, g)
  {
    SbFits(s, RowMajor, rm, row, g);
    SbFits(s, Interleaved4, Repack(s, rm), row, g);
    TileDecode(row, g, s.Groups());
  }

  lemma {:induction false} RepackIsRepack(s: Shape, rm: Bank)
    requires s.Valid() && Holds(s, RowMajor, rm)
    ensures IsRepack(s, rm, Repack(s, rm))
  {
    forall row, j, k | 0 <= row < s.rows && 0 <= j < s.cols / 16 && 0 <= k < 8 ensures SameByte(s, rm, Repack(s, rm), row, j, k) {
      RepackedByte(s, rm, row, j, k);
    }
    forall row, g | 0 <= row < s.rows && 0 <= g < s.Groups() ensures SameSb(s, rm, Repack(s, rm), row, g) {
      RepackedSb(s, rm, row, g);
    }
  }

  lemma {:induction false} SameWeight(s: Shape, rm: Bank, i4: Bank, row: nat, c: nat)
    requires s.Valid() && Holds(s, RowMajor, rm) && Holds(s, Interleaved4, i4) && IsRepack(s, rm, i4)
    requires row < s.rows && c < s.cols
    ensures Weight(s, RowMajor, rm, row, c) == Weight(s, Interleaved4, i4, row, c)
  {
    SameNibble(s, rm, i4, row, c);
    GroupOf(s, c);
    SameSbOf(s, rm, i4, row, Group(s, c));
  }

  lemma {:induction false} SameSbOf(s: Shape, rm: Bank, i4: Bank, row: nat, g: nat)
    requires s.Valid() && Holds(s, RowMajor, rm) && Holds(s, Interleaved4, i4) && IsRepack(s, rm, i4)
    requires row < s.rows && g < s.Groups()
    ensures SbOfGroup(s, RowMajor, rm, row, g) == SbOfGroup(s, Interleaved4, i4, row, g)
  {
    assert SameSb(s, rm, i4, row, g);
  }

  lemma {:induction false} SameNibble(s: Shape, rm: Bank, i4: Bank, row: nat, c: nat)
    requires s.Valid() && Holds(s, RowMajor, rm) && Holds(s, Interleaved4, i4) && IsRepack(s, rm, i4)
    requires row < s.rows && c < s.cols
    ensures Nibble(s, RowMajor, rm, row, c) == Nibble(s, Interleaved4, i4, row, c)
  {
    PackOf(s, c);
    assert SameByte(s, rm, i4, row, c / 16, c % 16 / 2);
  }

  // A bank and its repack have the same rows.
  lemma {:induction false} RepackSameDot(s: Shape, rm: Bank, i4: Bank, x: seq<real>, row: nat)
    requires s.Valid() && Holds(s, RowMajor, rm) && Holds(s, Interleaved4, i4) && IsRepack(s, rm, i4)
    requires row < s.rows && s.cols <= |x|
    ensures Dot(s, RowMajor, rm, x, row) == Dot(s, Interleaved4, i4, x, row)
  {
    var a, b := Weights(s, RowMajor, rm, row), Weights(s, Interleaved4, i4, row);
    forall c | 0 <= c < s.cols ensures a[c] == b[c] {
      SameWeight(s, rm, i4, row, c);
    }
    assert a == b;
  }

  // ---------- the lane dot ----------

  // 16^(k mod 4): the chunk-of-four prescale.
  function Place(k: nat): real {
    if k % 4 == 0 then 1.0 else if k % 4 == 1 then 16.0 else if k % 4 == 2 then 256.0 else 4096.0
  }

  function SumOf(x: seq<real>, lo: nat, hi: nat): real
    requires lo <= hi <= |x|
    decreases hi - lo
  {
    if lo == hi then 0.0 else SumOf(x, lo, hi - 1) + x[hi - 1]
  }

  lemma {:induction false} SumFour(x: seq<real>, lo: nat, at: nat)
    requires lo <= at && at + 4 <= |x|
    ensures SumOf(x, lo, at + 4) == SumOf(x, lo, at) + (x[at] + x[at + 1] + x[at + 2] + x[at + 3])
  {
    assert SumOf(x, lo, at + 1) == SumOf(x, lo, at) + x[at];
    assert SumOf(x, lo, at + 2) == SumOf(x, lo, at + 1) + x[at + 1];
    assert SumOf(x, lo, at + 3) == SumOf(x, lo, at + 2) + x[at + 2];
  }

  // xp[k] is x[k] over its place.
  ghost predicate Prescaled(xp: seq<real>, x: seq<real>) {
    |xp| == 16 && |x| == 16 && forall k :: 0 <= k < 16 ==> xp[k] == x[k] / Place(k)
  }

  // Sixteen elements of x from `at`, each divided by its place; and their sum.
  method LoadX16(x: seq<real>, at: nat, xp: array<real>) returns (sum: real)
    requires at + 16 <= |x| && xp.Length == 16
    modifies xp
    ensures Prescaled(xp[..], x[at..at + 16]) && sum == SumOf(x, at, at + 16)
  {
    LoadFour(x, at, xp, 0);
    LoadFour(x, at, xp, 4);
    LoadFour(x, at, xp, 8);
    LoadFour(x, at, xp, 12);
    sum := (x[at] + x[at + 1] + x[at + 2] + x[at + 3]) + (x[at + 4] + x[at + 5] + x[at + 6] + x[at + 7])
      + (x[at + 8] + x[at + 9] + x[at + 10] + x[at + 11]) + (x[at + 12] + x[at + 13] + x[at + 14] + x[at + 15]);
    SumFour(x, at, at);
    SumFour(x, at, at + 4);
    SumFour(x, at, at + 8);
    SumFour(x, at, at + 12);
  }

  method LoadFour(x: seq<real>, at: nat, xp: array<real>, k: nat)
    requires at + 16 <= |x| && xp.Length == 16 && k <= 12 && k % 4 == 0
    modifies xp
    ensures forall i :: k <= i < k + 4 ==> xp[i] == x[at + i] / Place(i)
    ensures forall i :: 0 <= i < 16 && !(k <= i < k + 4) ==> xp[i] == old(xp[i])
  {
    xp[k] := x[at + k];
    xp[k + 1] := x[at + k + 1] / 16.0;
    xp[k + 2] := x[at + k + 2] / 256.0;
    xp[k + 3] := x[at + k + 3] / 4096.0;
  }

  // 16^k
  function Shift(k: nat): nat
    requires k < 4
  {
    if k == 0 then 1 else if k == 1 then 16 else if k == 2 then 256 else 4096
  }

  // Bitwise and of two n-bit numbers.
  function And(a: nat, b: nat, n: nat): nat {
    if n == 0 then 0 else 2 * And(a / 2, b / 2, n - 1) + if a % 2 == 1 && b % 2 == 1 then 1 else 0
  }

  // w & (0xf << 4k): the nibble, left in its place.
  function InPlace(w: nat, k: nat): nat
    requires k < 4
  {
    And(w, 15 * Shift(k), 16)
  }

  lemma {:induction false} AndZero(w: nat, n: nat)
    ensures And(w, 0, n) == 0
  {
    if n > 0 { AndZero(w / 2, n - 1); }
  }

  lemma {:induction false} AndEven(w: nat, m: nat, n: nat)
    ensures And(w, 2 * m, n + 1) == 2 * And(w / 2, m, n)
  {
    assert (2 * m) / 2 == m && (2 * m) % 2 == 0;
  }

  // A mask four places up keeps what the mask keeps four places down.
  lemma {:induction false} AndUp(w: nat, m: nat, n: nat)
    ensures And(w, 16 * m, n + 4) == 16 * And(w / 16, m, n)
  {
    AndEven(w, 8 * m, n + 3);
    AndEven(w / 2, 4 * m, n + 2);
    AndEven(w / 2 / 2, 2 * m, n + 1);
    AndEven(w / 2 / 2 / 2, m, n);
    assert w / 2 / 2 / 2 / 2 == w / 16;
  }

  lemma {:induction false} AndOdd(w: nat, m: nat, n: nat)
    ensures And(w, 2 * m + 1, n + 1) == 2 * And(w / 2, m, n) + w % 2
  {
    assert (2 * m + 1) / 2 == m && (2 * m + 1) % 2 == 1;
  }

  lemma {:induction false} AndLow(w: nat, n: nat)
    ensures And(w, 15, n + 4) == w % 16
  {
    AndOdd(w, 7, n + 3);
    AndOdd(w / 2, 3, n + 2);
    AndOdd(w / 2 / 2, 1, n + 1);
    AndOdd(w / 2 / 2 / 2, 0, n);
    AndZero(w / 2 / 2 / 2 / 2, n);
    assert w % 16 == w % 2 + 2 * (w / 2 % 2) + 4 * (w / 2 / 2 % 2) + 8 * (w / 2 / 2 / 2 % 2);
  }

  lemma {:induction false} DigitOne(w: nat)
    ensures And(w, 240, 16) == w / 16 % 16 * 16
  {
    AndUp(w, 15, 12);
    AndLow(w / 16, 8);
  }

  lemma {:induction false} DigitTwo(w: nat)
    ensures And(w, 3840, 16) == w / 256 % 16 * 256
  {
    AndUp(w, 240, 12);
    AndUp(w / 16, 15, 8);
    AndLow(w / 16 / 16, 4);
    assert w / 16 / 16 == w / 256;
  }

  lemma {:induction false} DigitThree(w: nat)
    ensures And(w, 61440, 16) == w / 4096 % 16 * 4096
  {
    AndUp(w, 3840, 12);
    AndUp(w / 16, 240, 8);
    AndUp(w / 16 / 16, 15, 4);
    AndLow(w / 16 / 16 / 16, 0);
    assert w / 16 / 16 / 16 == w / 4096;
  }

  // The mask keeps hexadecimal digit k of a 16-bit number, in its place.
  lemma {:induction false} InPlaceIsDigit(w: nat, k: nat)
    requires k < 4
    ensures InPlace(w, k) == w / Shift(k) % 16 * Shift(k)
  {
    if k == 0 { AndLow(w, 12); }
    else if k == 1 { DigitOne(w); }
    else if k == 2 { DigitTwo(w); }
    else { DigitThree(w); }
  }

  // Sixteen bits, low byte first.
  function Half(lo: Byte, hi: Byte): nat {
    var h: int := hi;
    lo + 256 * h
  }

  // In place, nibble k of the half is the nibble of its byte times 16^k.
  lemma {:induction false} InPlaceIsNibble(lo: Byte, hi: Byte)
    ensures InPlace(Half(lo, hi), 0) == NibbleOf(lo, 0) && InPlace(Half(lo, hi), 1) == NibbleOf(lo, 1) * 16
    ensures InPlace(Half(lo, hi), 2) == NibbleOf(hi, 2) * 256 && InPlace(Half(lo, hi), 3) == NibbleOf(hi, 3) * 4096
  {
    var w := Half(lo, hi);
    HalfDigits(lo, hi, lo / 16, lo % 16, hi / 16, hi % 16);
    DigitsKept(w, w % 16, w / 16 % 16, w / 256 % 16, w / 4096 % 16);
  }

  lemma {:induction false} DigitsKept(w: nat, b: nat, a: nat, d: nat, c: nat)
    requires b == w % 16 && a == w / 16 % 16 && d == w / 256 % 16 && c == w / 4096 % 16
    ensures InPlace(w, 0) == b && InPlace(w, 1) == a * 16 && InPlace(w, 2) == d * 256 && InPlace(w, 3) == c * 4096
  {
    AndLow(w, 12);
    DigitOne(w);
    DigitTwo(w);
    DigitThree(w);
  }

  lemma {:induction false} HalfDigits(lo: int, hi: int, a: int, b: int, c: int, d: int)
    requires lo == 16 * a + b && hi == 16 * c + d && 0 <= a < 16 && 0 <= b < 16 && 0 <= c < 16 && 0 <= d < 16
    ensures var w := lo + 256 * hi; w % 16 == b && w / 16 % 16 == a && w / 256 % 16 == d && w / 4096 % 16 == c
  {
    var w := lo + 256 * hi;
    assert w / 16 == a + 16 * d + 256 * c;
    assert w / 256 == d + 16 * c;
    assert w / 4096 == c;
  }

  // Nibble k of the sixteen in eight bytes.
  function PackNibble(w: seq<Byte>, k: nat): nat
    requires |w| == 8 && k < 16
  {
    NibbleOf(w[k / 2], k)
  }

  // Nibble k times x[k].
  function PackTerm(w: seq<Byte>, x: seq<real>, k: nat): real
    requires |w| == 8 && k < 16 <= |x|
  {
    (PackNibble(w, k) as real) * x[k]
  }

  // sum over k < n of nibble k times x[k].
  function PackDot(w: seq<Byte>, x: seq<real>, n: nat): real
    requires |w| == 8 && n <= 16 <= |x|
  {
    if n == 0 then 0.0 else PackDot(w, x, n - 1) + PackTerm(w, x, n - 1)
  }

  // The prescale undoes the place.
  lemma {:induction false} Undo(p: real, x: real, place: real, kept: real, nibble: real)
    requires place > 0.0 && p == x / place && kept == nibble * place
    ensures p * kept == nibble * x
  {
    assert p * place == x;
    assert p * kept == (p * place) * nibble;
  }

  // xp[k] times the bits of a nibble kept in place.
  function Kept(xp: seq<real>, k: nat, bits: nat): real
    requires k < |xp|
  {
    xp[k] * (bits as real)
  }

  function Four(xp: seq<real>, q: nat, w: nat): real
    requires 4 * q + 4 <= |xp|
  {
    Kept(xp, 4 * q, InPlace(w, 0)) + Kept(xp, 4 * q + 1, InPlace(w, 1)) + Kept(xp, 4 * q + 2, InPlace(w, 2))
    + Kept(xp, 4 * q + 3, InPlace(w, 3))
  }

  lemma {:induction false} KeptIsTerm(w: seq<Byte>, x: seq<real>, xp: seq<real>, k: nat, bits: nat, place: nat)
    requires |w| == 8 && k < 16 && Prescaled(xp, x) && bits == PackNibble(w, k) * place
    requires place > 0 && place as real == Place(k)
    ensures Kept(xp, k, bits) == PackTerm(w, x, k)
  {
    CastProduct(PackNibble(w, k), place);
    Undo(xp[k], x[k], Place(k), bits as real, PackNibble(w, k) as real);
  }

  lemma {:induction false} CastProduct(a: nat, b: nat)
    ensures (a * b) as real == (a as real) * (b as real)
  {
  }

  lemma {:induction false} InPlaceAt(w: seq<Byte>, q: nat)
    requires |w| == 8 && q < 4
    ensures var h := Half(w[2 * q], w[2 * q + 1]);
            InPlace(h, 0) == PackNibble(w, 4 * q) * 1 && InPlace(h, 1) == PackNibble(w, 4 * q + 1) * 16
            && InPlace(h, 2) == PackNibble(w, 4 * q + 2) * 256 && InPlace(h, 3) == PackNibble(w, 4 * q + 3) * 4096
  {
    InPlaceIsNibble(w[2 * q], w[2 * q + 1]);
    assert (4 * q) / 2 == 2 * q && (4 * q + 1) / 2 == 2 * q && (4 * q + 2) / 2 == 2 * q + 1 && (4 * q + 3) / 2 == 2 * q + 1;
  }

  lemma {:induction false} FourProducts(w: seq<Byte>, x: seq<real>, xp: seq<real>, q: nat)
    requires |w| == 8 && q < 4 && Prescaled(xp, x)
    ensures Four(xp, q, Half(w[2 * q], w[2 * q + 1])) == PackDot(w, x, 4 * q + 4) - PackDot(w, x, 4 * q)
  {
    var h, k := Half(w[2 * q], w[2 * q + 1]), 4 * q;
    InPlaceAt(w, q);
    Places(q);
    KeptIsTerm(w, x, xp, k, InPlace(h, 0), 1);
    KeptIsTerm(w, x, xp, k + 1, InPlace(h, 1), 16);
    KeptIsTerm(w, x, xp, k + 2, InPlace(h, 2), 256);
    KeptIsTerm(w, x, xp, k + 3, InPlace(h, 3), 4096);
    PackDotFour(w, x, k);
  }

  lemma {:induction false} Places(q: nat)
    ensures Place(4 * q) == 1.0 && Place(4 * q + 1) == 16.0 && Place(4 * q + 2) == 256.0 && Place(4 * q + 3) == 4096.0
  {
  }

  lemma {:induction false} PackDotFour(w: seq<Byte>, x: seq<real>, k: nat)
    requires |w| == 8 && k + 4 <= 16 <= |x|
    ensures PackDot(w, x, k + 4) == PackDot(w, x, k) + PackTerm(w, x, k) + PackTerm(w, x, k + 1)
                                    + PackTerm(w, x, k + 2) + PackTerm(w, x, k + 3)
  {
    assert PackDot(w, x, k + 1) == PackDot(w, x, k) + PackTerm(w, x, k);
    assert PackDot(w, x, k + 2) == PackDot(w, x, k + 1) + PackTerm(w, x, k + 1);
    assert PackDot(w, x, k + 3) == PackDot(w, x, k + 2) + PackTerm(w, x, k + 2);
  }

  // The sixteen products in the code's order are the plain dot of the nibbles.
  lemma {:induction false} SixteenProducts(w: seq<Byte>, x: seq<real>, xp: seq<real>)
    requires |w| == 8 && Prescaled(xp, x)
    ensures 0.0 + Four(xp, 0, Half(w[0], w[1])) + Four(xp, 1, Half(w[2], w[3])) + Four(xp, 2, Half(w[4], w[5]))
            + Four(xp, 3, Half(w[6], w[7])) == PackDot(w, x, 16)
  {
    FourProducts(w, x, xp, 0);
    FourProducts(w, x, xp, 1);
    FourProducts(w, x, xp, 2);
    FourProducts(w, x, xp, 3);
  }

  // scale * accum + sum(x) * bias
  function Affinely(sb: Affine, accum: real, xsum: real): real { sb.scale * accum + xsum * sb.bias }

  method Qdot16(packed: seq<Byte>, w: nat, xp: seq<real>, ghost x: seq<real>, sb: Affine, xsum: real) returns (r: real)
    requires w + 8 <= |packed| && Prescaled(xp, x)
    ensures r == Affinely(sb, PackDot(packed[w..w + 8], x, 16), xsum)
  {
    SixteenProducts(packed[w..w + 8], x, xp);
    var accum := 0.0;
    accum := accum + Four(xp, 0, Half(packed[w], packed[w + 1]));
    accum := accum + Four(xp, 1, Half(packed[w + 2], packed[w + 3]));
    accum := accum + Four(xp, 2, Half(packed[w + 4], packed[w + 5]));
    accum := accum + Four(xp, 3, Half(packed[w + 6], packed[w + 7]));
    r := Affinely(sb, accum, xsum);
  }

  // Sixteen dequantized weights of one group, against x, are what Qdot16 computes from their bytes.
  lemma {:induction false} PackIsRange(wts: seq<real>, x: seq<real>, lo: nat, w: seq<Byte>, sb: Affine, n: nat)
    requires lo + 16 <= |wts| && lo + 16 <= |x| && n <= 16 && |w| == 8
    requires forall k :: 0 <= k < 16 ==> wts[lo + k] == Dequant(sb, PackNibble(w, k))
    ensures DotRange(wts, x, lo, lo + n) == Affinely(sb, PackDot(w, x[lo..lo + 16], n), SumOf(x, lo, lo + n))
  {
    if n > 0 {
      var xs := x[lo..lo + 16];
      PackIsRange(wts, x, lo, w, sb, n - 1);
      assert xs[n - 1] == x[lo + n - 1];
      assert wts[lo + (n - 1)] == Dequant(sb, PackNibble(w, n - 1));
      OneMore(sb, w, xs, n - 1, PackDot(w, xs, n - 1), SumOf(x, lo, lo + n - 1), wts[lo + (n - 1)],
              DotRange(wts, x, lo, lo + n), PackDot(w, xs, n), SumOf(x, lo, lo + n));
    }
  }

  lemma {:induction false} OneMore(sb: Affine, w: seq<Byte>, x: seq<real>, k: nat, accum: real, xsum: real, wt: real, dot: real,
                                   accum': real, xsum': real)
    requires |w| == 8 && k < 16 <= |x| && wt == Dequant(sb, PackNibble(w, k)) && dot == Affinely(sb, accum, xsum) + wt * x[k]
    requires accum' == accum + PackTerm(w, x, k) && xsum' == xsum + x[k]
    ensures dot == Affinely(sb, accum', xsum')
  {
    Collect(sb.scale, accum, PackNibble(w, k) as real, x[k], xsum, sb.bias);
  }

  lemma {:induction false} Collect(a: real, d: real, q: real, x: real, t: real, b: real)
    ensures (a * d + t * b) + (a * q + b) * x == a * (d + q * x) + (t + x) * b
  {
  }

  // A pack never straddles two groups.
  lemma {:induction false} SameGroup(s: Shape, j: nat, c: nat)
    requires s.Valid() && 16 * j <= c < 16 * j + 16
    ensures Group(s, c) == Group(s, 16 * j)
  {
    var m := s.gs / 16;
    var q, r := j / m, j % m;
    assert j == q * m + r;
    assert 16 * (q * m) == q * s.gs;
    assert 16 * r + 16 <= s.gs;
    QuotientOf(16 * j, q, s.gs, 16 * r);
    QuotientOf(c, q, s.gs, 16 * r + (c - 16 * j));
  }

  lemma {:induction false} QuotientOf(x: nat, q: nat, d: nat, r: nat)
    requires r < d && x == q * d + r
    ensures x / d == q
  {
    var p := x / d;
    assert x == p * d + x % d;
    if p < q {
      MulMono(p + 1, q, d);
    } else if p > q {
      MulMono(q + 1, p, d);
    }
  }

  // The bytes of pack j of a row, and the scale and bias of its group.
  function PackBytes(s: Shape, l: Q4Layout, bank: Bank, row: nat, j: nat): (w: seq<Byte>)
    requires s.Valid() && Holds(s, l, bank) && row < s.rows && j < s.cols / 16
    ensures |w| == 8
  {
    ByteFits(s, l, bank, row, j, 7);
    bank.packed[ByteAt(s, l, row, j, 0)..ByteAt(s, l, row, j, 0) + 8]
  }

  function PackSb(s: Shape, l: Q4Layout, bank: Bank, row: nat, j: nat): Affine
    requires s.Valid() && Holds(s, l, bank) && row < s.rows && 16 * j < s.cols
  {
    SbOf(s, l, bank, row, 16 * j)
  }

  lemma {:induction false} PackColumn(s: Shape, j: nat, k: nat)
    requires s.Valid() && j < s.cols / 16 && k < 16
    ensures 16 * j + k < s.cols && 16 * j + 16 <= s.cols
    ensures (16 * j + k) / 16 == j && (16 * j + k) % 16 == k && (16 * j + k) % 2 == k % 2
  {
  }

  lemma {:induction false} PackNibbles(s: Shape, l: Q4Layout, bank: Bank, row: nat, j: nat, k: nat)
    requires s.Valid() && Holds(s, l, bank) && row < s.rows && j < s.cols / 16 && k < 16 && 16 * j + k < s.cols
    ensures Nibble(s, l, bank, row, 16 * j + k) == PackNibble(PackBytes(s, l, bank, row, j), k)
  {
    PackColumn(s, j, k);
    ByteFits(s, l, bank, row, j, k / 2);
    ByteFits(s, l, bank, row, j, 7);
  }

  lemma {:induction false} PackWeight(s: Shape, l: Q4Layout, bank: Bank, row: nat, j: nat, k: nat)
    requires s.Valid() && Holds(s, l, bank) && row < s.rows && j < s.cols / 16 && k < 16
    ensures 16 * j + 16 <= s.cols
    ensures Weight(s, l, bank, row, 16 * j + k) == Dequant(PackSb(s, l, bank, row, j), PackNibble(PackBytes(s, l, bank, row, j), k))
  {
    PackColumn(s, j, k);
    PackNibbles(s, l, bank, row, j, k);
    SameGroup(s, j, 16 * j + k);
    assert SbOf(s, l, bank, row, 16 * j + k) == PackSb(s, l, bank, row, j);
  }

  // What one lane adds for one pack of one row.
  lemma {:induction false} PackDotIsRange(s: Shape, l: Q4Layout, bank: Bank, x: seq<real>, row: nat, j: nat)
    requires s.Valid() && Holds(s, l, bank) && row < s.rows && j < s.cols / 16 && s.cols <= |x|
    ensures 16 * j + 16 <= s.cols
    ensures var sb := PackSb(s, l, bank, row, j);
            DotRange(Weights(s, l, bank, row), x, 16 * j, 16 * j + 16) ==
            Affinely(sb, PackDot(PackBytes(s, l, bank, row, j), x[16 * j..16 * j + 16], 16), SumOf(x, 16 * j, 16 * j + 16))
  {
    var w := Weights(s, l, bank, row);
    var b, sb := PackBytes(s, l, bank, row, j), PackSb(s, l, bank, row, j);
    forall k | 0 <= k < 16 ensures w[16 * j + k] == Dequant(sb, PackNibble(b, k)) {
      PackWeight(s, l, bank, row, j, k);
    }
    PackIsRange(w, x, 16 * j, b, sb, 16);
  }
}
