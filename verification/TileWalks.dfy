// Tile walks: linear threadgroup id to (x, y) tile (kernels/gemm_coop.h). Every walk visits every tile of the grid
// exactly once, and every larger 32-bit id falls outside the grid.
module TileWalks {
  import opened Common
  import opened Layout
  import opened Lanes

  const U32: nat := 0x1_0000_0000

  datatype Tile = Tile(x: nat, y: nat)
  {
    predicate In(tilesN: nat, tilesM: nat) { x < tilesN && y < tilesM }
  }

  // ---------- Morton order ----------

  function Pow4(n: nat): (p: nat)
    ensures p >= 1
  {
    if n == 0 then 1 else 4 * Pow4(n - 1)
  }

  // c >> n
  function Shr(c: nat, n: nat): nat
    decreases n
  {
    if n == 0 then c else Shr(c / 2, n - 1)
  }

  // b << n
  function Shl(b: nat, n: nat): nat { if n == 0 then b else 2 * Shl(b, n - 1) }

  // The even bits of c, n of them, packed; and the odd ones.
  function Even(c: nat, n: nat): (x: nat)
    ensures x < Pow2(n)
  {
    if n == 0 then 0 else 2 * Even(c / 4, n - 1) + c % 2
  }

  function Odd(c: nat, n: nat): (y: nat)
    ensures y < Pow2(n)
  {
    if n == 0 then 0 else 2 * Odd(c / 4, n - 1) + c / 2 % 2
  }

  lemma {:induction false} NextPair(c: nat, i: nat)
    ensures Even(c, i + 1) == Even(c, i) + Shl(Shr(c, 2 * i) % 2, i)
    ensures Odd(c, i + 1) == Odd(c, i) + Shl(Shr(c, 2 * i + 1) % 2, i)
    decreases i
  {
    if i > 0 {
      NextPair(c / 4, i - 1);
      ShrTwo(c, 2 * (i - 1));
      ShrTwo(c, 2 * (i - 1) + 1);
    } else {
      assert Shr(c, 1) == Shr(c / 2, 0) && Even(c, 1) == 2 * Even(c / 4, 0) + c % 2 && Odd(c, 1) == 2 * Odd(c / 4, 0) + c / 2 % 2;
    }
  }

  lemma {:induction false} ShrTwo(c: nat, n: nat)
    ensures Shr(c, n + 2) == Shr(c / 4, n)
  {
    assert Shr(c, n + 2) == Shr(c / 2, n + 1) == Shr(c / 2 / 2, n);
  }

  // x |= ((c >> 2i) & 1) << i and y |= ((c >> (2i + 1)) & 1) << i, for i < 16: bit i of x and y is still clear, so
  // the or adds.
  method MortonDecode2d(c: nat) returns (t: Tile)
    ensures t == Tile(Even(c, 16), Odd(c, 16))
  {
    var x: nat, y: nat := 0, 0;
    for i := 0 to 16
      invariant x == Even(c, i) && y == Odd(c, i)
    {
      NextPair(c, i);
      x := x + Shl(Shr(c, 2 * i) % 2, i);
      y := y + Shl(Shr(c, 2 * i + 1) % 2, i);
    }
    t := Tile(x, y);
  }

  // The low n bits of x and y, interleaved, x first.
  function Encode(x: nat, y: nat, n: nat): (c: nat)
    ensures c < Pow4(n)
  {
    if n == 0 then 0 else 4 * Encode(x / 2, y / 2, n - 1) + 2 * (y % 2) + x % 2
  }

  // Decoding is exactly undoing the interleaving.
  lemma {:induction false} EncodeDecoded(c: nat, n: nat)
    requires c < Pow4(n)
    ensures Encode(Even(c, n), Odd(c, n), n) == c
  {
    if n > 0 {
      EncodeDecoded(c / 4, n - 1);
      Halved(Even(c / 4, n - 1), c % 2);
      Halved(Odd(c / 4, n - 1), c / 2 % 2);
      Digits(c);
    }
  }

  lemma {:induction false} Halved(x: nat, b: nat)
    requires b <= 1
    ensures (2 * x + b) / 2 == x && (2 * x + b) % 2 == b
  {
  }

  lemma {:induction false} Digits(c: nat)
    ensures c == 4 * (c / 4) + 2 * (c / 2 % 2) + c % 2
  {
  }

  lemma {:induction false} Pairs(e: nat, a: nat, b: nat)
    requires a <= 1 && b <= 1
    ensures var c := 4 * e + 2 * a + b; c / 4 == e && c % 2 == b && c / 2 % 2 == a
  {
  }

  lemma {:induction false} DecodeEncoded(x: nat, y: nat, n: nat)
    requires x < Pow2(n) && y < Pow2(n)
    ensures Even(Encode(x, y, n), n) == x && Odd(Encode(x, y, n), n) == y
  {
    if n > 0 {
      DecodeEncoded(x / 2, y / 2, n - 1);
      Pairs(Encode(x / 2, y / 2, n - 1), y % 2, x % 2);
    }
  }

  // Both coordinates are below 2^k exactly when the code is below 4^k.
  lemma {:induction false} SquareIds(c: nat, k: nat, n: nat)
    requires k <= n && c < Pow4(n)
    ensures c < Pow4(k) <==> Even(c, n) < Pow2(k) && Odd(c, n) < Pow2(k)
  {
    if k > 0 {
      SquareIds(c / 4, k - 1, n - 1);
    } else {
      ZeroCode(c, n);
    }
  }

  lemma {:induction false} ZeroCode(c: nat, n: nat)
    requires c < Pow4(n)
    ensures c == 0 <==> Even(c, n) == 0 && Odd(c, n) == 0
  {
    if n > 0 {
      ZeroCode(c / 4, n - 1);
    }
  }

  // Sixteen pairs are the 32 bits of an id.
  lemma {:induction false} SixteenPairs()
    ensures Pow4(16) == U32
  {
    assert Pow4(3) == 64;
    assert Pow4(6) == 4096;
    assert Pow4(9) == 262144;
    assert Pow4(12) == 16777216;
    assert Pow4(14) == 268435456;
  }

  lemma {:induction false} Pow4IsSquare(k: nat)
    ensures Pow4(k) == Pow2(k) * Pow2(k)
  {
    if k > 0 {
      Pow4IsSquare(k - 1);
      var p := Pow2(k - 1);
      assert (2 * p) * (2 * p) == 4 * (p * p);
    }
  }

  lemma {:induction false} Pow4Mono(a: nat, b: nat)
    requires Pow4(a) <= Pow4(b)
    ensures a <= b
    decreases a
  {
    if a > b {
      Pow4Less(b, a);
    }
  }

  lemma {:induction false} Pow4Less(a: nat, b: nat)
    requires a < b
    ensures Pow4(a) < Pow4(b)
  {
    if a + 1 < b {
      Pow4Less(a, b - 1);
    }
  }

  // ---------- the walks ----------

  // x != 0 and x & (x - 1) == 0: halving an even number until 1.
  predicate PowerOfTwo(x: nat)
    decreases x
  {
    x == 1 || (x > 0 && x % 2 == 0 && PowerOfTwo(x / 2))
  }

  lemma {:induction false} PowerOfTwoIs(x: nat) returns (k: nat)
    requires PowerOfTwo(x)
    ensures Pow2(k) == x
    decreases x
  {
    if x == 1 {
      k := 0;
    } else {
      k := PowerOfTwoIs(x / 2);
      k := k + 1;
    }
  }

  predicate GridIsMorton(tilesN: nat, tilesM: nat) { tilesN == tilesM && PowerOfTwo(tilesN) }

  function RowMajorTile(linear: nat, tilesN: nat): Tile
    requires tilesN > 0
  {
    Tile(linear % tilesN, linear / tilesN)
  }

  function MortonTile(linear: nat): Tile { Tile(Even(linear, 16), Odd(linear, 16)) }

  function FromLinear(linear: nat, tilesN: nat, tilesM: nat): Tile
    requires tilesN > 0
  {
    if GridIsMorton(tilesN, tilesM) then MortonTile(linear) else RowMajorTile(linear, tilesN)
  }

  // Column panels: bands of ph tile rows, each walked down a column before moving right. A larger id decodes to the
  // grid's outer corner.
  function PanelTile(linear: nat, tilesN: nat, tilesM: nat, ph: nat): (t: Tile)
    requires ph > 0 && tilesN > 0
  {
    if linear >= tilesN * tilesM then Tile(tilesN, tilesM)
    else
      MulMono(1, ph, tilesN);
      InPanels(linear, ph * tilesN, tilesN, tilesM, ph)
  }

  // The tile of an id of the grid, in bands of w tiles.
  function InPanels(linear: nat, w: nat, tilesN: nat, tilesM: nat, ph: nat): Tile
    requires ph > 0 && tilesN > 0 && w == ph * tilesN && w > 0 && linear < tilesN * tilesM
  {
    InBandOf(linear, linear / w, w, tilesN, tilesM, ph)
  }

  function InBandOf(linear: nat, band: nat, w: nat, tilesN: nat, tilesM: nat, ph: nat): Tile
    requires ph > 0 && w == ph * tilesN && w > 0 && linear < tilesN * tilesM && band == linear / w
  {
    BandTop(linear, band, w, tilesN, tilesM, ph);
    InBand(linear, band * ph, tilesN, tilesM, ph)
  }

  // The tile of an id in the band that starts at tile row `top`.
  function InBand(linear: nat, top: nat, tilesN: nat, tilesM: nat, ph: nat): Tile
    requires ph > 0 && top < tilesM && top * tilesN <= linear
  {
    Column(linear - top * tilesN, top, Min(ph, tilesM - top))
  }

  // The rem-th tile of a band of `height` rows, column by column.
  function Column(rem: nat, top: nat, height: nat): Tile
    requires height > 0
  {
    Tile(rem / height, top + rem % height)
  }

  // Where an id of the grid falls: its band starts above the grid's bottom, and the rest is inside the band.
  lemma {:induction false} BandTop(linear: nat, band: nat, w: nat, tilesN: nat, tilesM: nat, ph: nat)
    requires ph > 0 && w == ph * tilesN && w > 0 && linear < tilesN * tilesM && band == linear / w
    ensures var top := band * ph;
            top < tilesM && top * tilesN <= linear && linear - top * tilesN < Min(ph, tilesM - top) * tilesN
  {
    var _, rem := Split(linear, w);
    Regroup(band, ph, tilesN);
    BandEdge(linear, band * ph, rem, tilesN, tilesM, ph);
  }

  lemma {:induction false} BandEdge(linear: nat, top: nat, rem: nat, tilesN: nat, tilesM: nat, ph: nat)
    requires linear == top * tilesN + rem && rem < ph * tilesN && linear < tilesM * tilesN
    ensures top < tilesM && rem < Min(ph, tilesM - top) * tilesN
  {
    if top >= tilesM {
      MulMono(tilesM, top, tilesN);
    }
    Apart(tilesM, top, tilesN);
  }

  lemma {:induction false} Split(a: nat, b: nat) returns (q: nat, r: nat)
    requires b > 0
    ensures q == a / b && r == a % b && r < b && a == q * b + r
  {
    q, r := a / b, a % b;
  }

  lemma {:induction false} Regroup(a: nat, b: nat, c: nat)
    ensures a * (b * c) == a * b * c
  {
  }

  lemma {:induction false} Apart(a: nat, b: nat, c: nat)
    requires b <= a
    ensures (a - b) * c == a * c - b * c
  {
  }

  // The id at which a panel walk visits a tile.
  function PanelId(t: Tile, tilesN: nat, tilesM: nat, ph: nat): nat
    requires ph > 0 && t.In(tilesN, tilesM)
  {
    IdFrom(t, t.y / ph * ph, tilesN, tilesM, ph)
  }

  function IdFrom(t: Tile, top: nat, tilesN: nat, tilesM: nat, ph: nat): nat
    requires ph > 0 && top <= t.y < tilesM
  {
    top * tilesN + (t.x * Min(ph, tilesM - top) + (t.y - top))
  }

  lemma {:induction false} PanelVisits(t: Tile, tilesN: nat, tilesM: nat, ph: nat)
    requires ph > 0 && t.In(tilesN, tilesM)
    ensures PanelId(t, tilesN, tilesM, ph) < tilesN * tilesM
    ensures PanelTile(PanelId(t, tilesN, tilesM, ph), tilesN, tilesM, ph) == t
  {
    var band, ly := Split(t.y, ph);
    var id, top := PanelId(t, tilesN, tilesM, ph), band * ph;
    IdInBand(t, top, tilesN, tilesM, ph, id);
    MulMono(1, ph, tilesN);
    Regroup(band, ph, tilesN);
    ModUnique(id, band, id - top * tilesN, ph * tilesN);
    assert PanelTile(id, tilesN, tilesM, ph) == InBand(id, top, tilesN, tilesM, ph);
  }

  lemma {:induction false} IdInBand(t: Tile, top: nat, tilesN: nat, tilesM: nat, ph: nat, id: nat)
    requires ph > 0 && t.In(tilesN, tilesM) && top <= t.y < top + ph && id == IdFrom(t, top, tilesN, tilesM, ph)
    ensures top * tilesN <= id < tilesN * tilesM && id - top * tilesN < ph * tilesN
    ensures InBand(id, top, tilesN, tilesM, ph) == t
  {
    var height := Min(ph, tilesM - top);
    var rem := t.x * height + (t.y - top);
    CellFits(tilesN, height, t.x, t.y - top);
    MulMono(height, ph, tilesN);
    MulMono(top + height, tilesM, tilesN);
    Apart(top + height, top, tilesN);
    ModUnique(rem, t.x, t.y - top, height);
  }

  lemma {:induction false} PanelInside(linear: nat, tilesN: nat, tilesM: nat, ph: nat)
    requires ph > 0 && tilesN > 0 && linear < tilesN * tilesM
    ensures PanelTile(linear, tilesN, tilesM, ph).In(tilesN, tilesM)
    ensures PanelId(PanelTile(linear, tilesN, tilesM, ph), tilesN, tilesM, ph) == linear
  {
    MulMono(1, ph, tilesN);
    InPanelsInside(linear, ph * tilesN, tilesN, tilesM, ph);
  }

  lemma {:induction false} InPanelsInside(linear: nat, w: nat, tilesN: nat, tilesM: nat, ph: nat)
    requires ph > 0 && tilesN > 0 && w == ph * tilesN && w > 0 && linear < tilesN * tilesM
    ensures var t := InPanels(linear, w, tilesN, tilesM, ph); t.In(tilesN, tilesM) && PanelId(t, tilesN, tilesM, ph) == linear
  {
    BandTop(linear, linear / w, w, tilesN, tilesM, ph);
    BandInside(linear, linear / w, tilesN, tilesM, ph);
  }

  lemma {:induction false} BandInside(linear: nat, band: nat, tilesN: nat, tilesM: nat, ph: nat)
    requires ph > 0 && band * ph < tilesM && band * ph * tilesN <= linear
    requires linear - band * ph * tilesN < Min(ph, tilesM - band * ph) * tilesN
    ensures var t := InBand(linear, band * ph, tilesN, tilesM, ph);
            t.In(tilesN, tilesM) && PanelId(t, tilesN, tilesM, ph) == linear
  {
    var top := band * ph;
    var t := InBand(linear, top, tilesN, tilesM, ph);
    TileInBand(linear, top, tilesN, tilesM, ph);
    ModUnique(t.y, band, t.y - top, ph);
  }

  lemma {:induction false} TileInBand(linear: nat, top: nat, tilesN: nat, tilesM: nat, ph: nat)
    requires ph > 0 && top < tilesM && top * tilesN <= linear
    requires linear - top * tilesN < Min(ph, tilesM - top) * tilesN
    ensures var t := InBand(linear, top, tilesN, tilesM, ph);
            t.In(tilesN, tilesM) && top <= t.y < top + ph && IdFrom(t, top, tilesN, tilesM, ph) == linear
  {
    ColumnInside(linear - top * tilesN, top, Min(ph, tilesM - top), tilesN);
  }

  lemma {:induction false} ColumnInside(rem: nat, top: nat, height: nat, tilesN: nat)
    requires height > 0 && rem < height * tilesN
    ensures var t := Column(rem, top, height);
            t.x < tilesN && top <= t.y < top + height && t.x * height + (t.y - top) == rem
  {
    var x, ly := Split(rem, height);
    if x >= tilesN {
      MulMono(tilesN, x, height);
    }
  }

  const PANEL_MIN_B_ELEMS: nat := 0x80_0000
  const PANEL_BAND_ROWS: nat := 512

  // The walk policies: by B's size (production), by the grid, linear, row-major, a fixed panel.
  datatype Walk = ByB(sm: nat) | ByGrid | Linear | RowMajor | Panel(ph: nat)
  {
    predicate Valid() { (ByB? ==> 0 < sm <= PANEL_BAND_ROWS) && (Panel? ==> ph > 0) }

    // The panel height a walk uses on this problem, or 0 when it does not walk panels.
    function Height(tilesN: nat, tilesM: nat, n: nat, k: nat): nat
      requires Valid()
    {
      match this
      case ByB(sm) => if n * k >= PANEL_MIN_B_ELEMS && !GridIsMorton(tilesN, tilesM) then PANEL_BAND_ROWS / sm else 0
      case ByGrid => if tilesN * tilesM >= 2048 then 8 else 0
      case Linear => 0
      case RowMajor => 0
      case Panel(ph) => ph
    }

    // The grid's ids fit 32 bits; a panel walk also forms the tile count itself in 32 bits.
    predicate Fits(tilesN: nat, tilesM: nat, n: nat, k: nat)
      requires Valid()
    {
      tilesN * tilesM <= U32 && (Height(tilesN, tilesM, n, k) > 0 ==> tilesN * tilesM < U32)
    }

    function At(linear: nat, tilesN: nat, tilesM: nat, n: nat, k: nat): Tile
      requires Valid() && tilesN > 0
    {
      var ph := Height(tilesN, tilesM, n, k);
      if ph > 0 then PanelTile(linear, tilesN, tilesM, ph)
      else if RowMajor? || Panel? then RowMajorTile(linear, tilesN)
      else FromLinear(linear, tilesN, tilesM)
    }

    // The id at which the walk visits a tile of the grid.
    function IdOf(t: Tile, tilesN: nat, tilesM: nat, n: nat, k: nat): nat
      requires Valid() && t.In(tilesN, tilesM)
    {
      var ph := Height(tilesN, tilesM, n, k);
      if ph > 0 then PanelId(t, tilesN, tilesM, ph)
      else if RowMajor? || Panel? || !GridIsMorton(tilesN, tilesM) then Cell(t.y, tilesN, t.x)
      else Encode(t.x, t.y, 16)
    }

    // An id falls inside the grid exactly when it is below the number of tiles, and then it is its tile's own id.
    lemma {:induction false} Inside(linear: nat, tilesN: nat, tilesM: nat, n: nat, k: nat)
      requires Valid() && tilesN > 0 && Fits(tilesN, tilesM, n, k) && linear < U32
      ensures At(linear, tilesN, tilesM, n, k).In(tilesN, tilesM) <==> linear < tilesN * tilesM
      ensures linear < tilesN * tilesM ==> IdOf(At(linear, tilesN, tilesM, n, k), tilesN, tilesM, n, k) == linear
    {
      var ph := Height(tilesN, tilesM, n, k);
      if ph > 0 {
        if linear < tilesN * tilesM {
          PanelInside(linear, tilesN, tilesM, ph);
        }
      } else if RowMajor? || Panel? || !GridIsMorton(tilesN, tilesM) {
        RowMajorInside(linear, tilesN, tilesM);
      } else {
        MortonInside(linear, tilesN);
      }
    }

    // The tile as the kernel forms it, in 32-bit arithmetic: the exact one under the size bounds.
    function At32(linear: nat, tilesN: nat, tilesM: nat, n: nat, k: nat): Tile
      requires Valid() && tilesN > 0 && linear < U32
      requires Height(tilesN, tilesM, n, k) > 0 ==> Wrap(Height(tilesN, tilesM, n, k) * tilesN) > 0
    {
      var ph := Height(tilesN, tilesM, n, k);
      if ph > 0 then PanelTile32(linear, tilesN, tilesM, ph) else At(linear, tilesN, tilesM, n, k)
    }

    lemma {:induction false} AtNoWrap(linear: nat, tilesN: nat, tilesM: nat, n: nat, k: nat)
      requires Valid() && tilesN > 0 && Fits(tilesN, tilesM, n, k) && linear < U32
      requires tilesM < U32 && Height(tilesN, tilesM, n, k) * tilesN < U32
      ensures Height(tilesN, tilesM, n, k) > 0 ==> Wrap(Height(tilesN, tilesM, n, k) * tilesN) > 0
      ensures At32(linear, tilesN, tilesM, n, k) == At(linear, tilesN, tilesM, n, k)
    {
      var ph := Height(tilesN, tilesM, n, k);
      if ph > 0 { PanelNoWrap(linear, tilesN, tilesM, ph); }
    }

    // Every tile of the grid is visited, at an id below the number of tiles.
    lemma {:induction false} Visits(t: Tile, tilesN: nat, tilesM: nat, n: nat, k: nat)
      requires Valid() && t.In(tilesN, tilesM) && Fits(tilesN, tilesM, n, k)
      ensures IdOf(t, tilesN, tilesM, n, k) < tilesN * tilesM
      ensures At(IdOf(t, tilesN, tilesM, n, k), tilesN, tilesM, n, k) == t
    {
      var ph := Height(tilesN, tilesM, n, k);
      if ph > 0 {
        PanelVisits(t, tilesN, tilesM, ph);
      } else if RowMajor? || Panel? || !GridIsMorton(tilesN, tilesM) {
        CellFits(tilesM, tilesN, t.y, t.x);
        ModUnique(Cell(t.y, tilesN, t.x), t.y, t.x, tilesN);
      } else {
        MortonVisits(t, tilesN);
      }
    }
  }

  lemma {:induction false} RowMajorInside(linear: nat, tilesN: nat, tilesM: nat)
    requires tilesN > 0
    ensures RowMajorTile(linear, tilesN).In(tilesN, tilesM) <==> linear < tilesN * tilesM
    ensures Cell(linear / tilesN, tilesN, linear % tilesN) == linear
  {
    if linear / tilesN < tilesM {
      CellFits(tilesM, tilesN, linear / tilesN, linear % tilesN);
    } else {
      MulMono(tilesM, linear / tilesN, tilesN);
    }
  }

  lemma {:induction false} MortonSide(side: nat) returns (k: nat)
    requires PowerOfTwo(side) && side * side <= U32
    ensures k <= 16 && Pow2(k) == side && Pow4(k) == side * side
  {
    k := PowerOfTwoIs(side);
    Pow4IsSquare(k);
    SixteenPairs();
    Pow4Mono(k, 16);
  }

  lemma {:induction false} MortonInside(linear: nat, side: nat)
    requires PowerOfTwo(side) && side * side <= U32 && linear < U32
    ensures MortonTile(linear).In(side, side) <==> linear < side * side
    ensures Encode(Even(linear, 16), Odd(linear, 16), 16) == linear
  {
    var k := MortonSide(side);
    SixteenPairs();
    SquareIds(linear, k, 16);
    EncodeDecoded(linear, 16);
  }

  lemma {:induction false} MortonVisits(t: Tile, side: nat)
    requires PowerOfTwo(side) && side * side <= U32 && t.In(side, side)
    ensures Encode(t.x, t.y, 16) < side * side && MortonTile(Encode(t.x, t.y, 16)) == t
  {
    var k := MortonSide(side);
    Pow2Mono(k, 16);
    DecodeEncoded(t.x, t.y, 16);
    SquareIds(Encode(t.x, t.y, 16), k, 16);
  }

  // ---------- 32-bit arithmetic ----------

  // x modulo 2^32.
  function Wrap(x: int): (r: nat)
    ensures r < U32 && (0 <= x < U32 ==> r == x)
    decreases if x < 0 then U32 - x else x
  {
    if x < 0 then Wrap(x + U32) else if x >= U32 then Wrap(x - U32) else x
  }

  // The panel decode as the kernel computes it, every product and difference modulo 2^32.
  function PanelTile32(linear: nat, tilesN: nat, tilesM: nat, ph: nat): Tile
    requires Wrap(ph * tilesN) > 0 && linear < U32
  {
    if linear >= Wrap(tilesN * tilesM) then Tile(tilesN, tilesM)
    else InPanels32(linear, Wrap(ph * tilesN), tilesN, tilesM, ph)
  }

  function InPanels32(linear: nat, w: nat, tilesN: nat, tilesM: nat, ph: nat): Tile
    requires w > 0
  {
    InBand32(linear, Wrap(linear / w * ph), tilesN, tilesM, ph)
  }

  function InBand32(linear: nat, top: nat, tilesN: nat, tilesM: nat, ph: nat): Tile {
    var rem := Wrap(linear - Wrap(top * tilesN));
    var height := Min(ph, Wrap(tilesM - top));
    if height == 0 then Tile(tilesN, tilesM) else Tile(rem / height, Wrap(top + rem % height))
  }

  // Under the size bounds nothing wraps: the grid and one band's row fit 32 bits.
  lemma {:induction false} PanelNoWrap(linear: nat, tilesN: nat, tilesM: nat, ph: nat)
    requires tilesN > 0 && tilesM < U32 && 0 < ph && ph * tilesN < U32 && tilesN * tilesM < U32 && linear < U32
    ensures Wrap(ph * tilesN) > 0
    ensures PanelTile32(linear, tilesN, tilesM, ph) == PanelTile(linear, tilesN, tilesM, ph)
  {
    MulMono(1, ph, tilesN);
    if linear < tilesN * tilesM {
      PanelsNoWrap(linear, ph * tilesN, tilesN, tilesM, ph);
    }
  }

  // A grid of exactly 2^32 tiles is counted as none: the panel decode then rejects every id.
  lemma {:induction false} FullGridRejected(linear: nat, tilesN: nat, tilesM: nat, ph: nat)
    requires tilesN * tilesM == U32 && Wrap(ph * tilesN) > 0 && linear < U32
    ensures PanelTile32(linear, tilesN, tilesM, ph) == Tile(tilesN, tilesM)
  {
    assert Wrap(U32) == Wrap(0) == 0;
  }

  lemma {:induction false} PanelsNoWrap(linear: nat, w: nat, tilesN: nat, tilesM: nat, ph: nat)
    requires ph > 0 && tilesN > 0 && w == ph * tilesN && w > 0 && linear < tilesN * tilesM && tilesM < U32 && linear < U32
    ensures InPanels32(linear, w, tilesN, tilesM, ph) == InPanels(linear, w, tilesN, tilesM, ph)
  {
    BandTop(linear, linear / w, w, tilesN, tilesM, ph);
    BandNoWrap(linear, linear / w * ph, tilesN, tilesM, ph);
  }

  lemma {:induction false} BandNoWrap(linear: nat, top: nat, tilesN: nat, tilesM: nat, ph: nat)
    requires ph > 0 && linear < U32 && tilesM < U32 && top < tilesM && top * tilesN <= linear
    requires linear - top * tilesN < Min(ph, tilesM - top) * tilesN
    ensures InBand32(linear, top, tilesN, tilesM, ph) == InBand(linear, top, tilesN, tilesM, ph)
  {
    ColumnInside(linear - top * tilesN, top, Min(ph, tilesM - top), tilesN);
    var begin := top * tilesN;
    assert Wrap(begin) == begin && Wrap(linear - begin) == linear - begin && Wrap(tilesM - top) == tilesM - top;
  }

  // When the production walk goes by panels, and how high they are: for B of 2^23 elements or more, unless the grid is a
  // Morton one, as many tiles as 512 rows of C hold.
  lemma {:induction false} PanelGate(sm: nat, tilesN: nat, tilesM: nat, n: nat, k: nat)
    requires 0 < sm <= 512
    ensures ByB(sm).Height(tilesN, tilesM, n, k) > 0 <==> n * k >= 8388608 && !GridIsMorton(tilesN, tilesM)
    ensures var ph := ByB(sm).Height(tilesN, tilesM, n, k); ph > 0 ==> ph * sm <= 512 < (ph + 1) * sm
  {
    var q := 512 / sm;
    assert 512 == q * sm + 512 % sm && (q + 1) * sm == q * sm + sm;
  }

  // The gated walk's panels meet those bounds for every matrix a signed column index can address, on tiles of 16
  // rows by 32 columns or larger.
  lemma {:induction false} GatedPanelFits(n: nat, sm: nat, sn: nat)
    requires n < 0x8000_0000 && 16 <= sm <= PANEL_BAND_ROWS && sn >= 32
    ensures PANEL_BAND_ROWS / sm * ((n + sn - 1) / sn) < U32
  {
    var ph, tilesN := PANEL_BAND_ROWS / sm, (n + sn - 1) / sn;
    assert ph <= 32 by {
      MulMono(16, sm, ph);
    }
    assert tilesN * sn <= n + sn - 1;
    if tilesN > 0 {
      MulMono(32, sn, tilesN - 1);
      assert tilesN <= n / 32 + 1;
    }
    MulMono(ph, 32, tilesN);
  }
}
