// A file of one component: the writer orders its blocks by MCUs of the component's own sampling factors, where section
// A.2.2 of ITU-T T.81 orders a lone component's blocks by rows, whatever the factors.
module JpegLoneScan {
  import opened JpegValues
  import opened JpegScan
  import opened JpegUnits
  import opened JpegFile

  // The blocks of a lone component in the standard's order: rows of the component, left to right.
  function Raster(width: nat, height: nat): seq<Ref> {
    Grid(0, 0, 0, CeilDiv(height, 8), CeilDiv(width, 8))
  }

  // The scan the writer makes of it.
  function Lone(h: nat, v: nat, width: nat, height: nat): Geometry
    requires h > 0 && v > 0
  {
    Geometry([Comp(0, h, v)], CeilDiv(height, 8 * v), CeilDiv(width, 8 * h))
  }

  // The blocks a scan writes, in order.
  function Blocks(g: Geometry): seq<Ref> { Concat(g.Units()) }

  lemma {:induction false} LoneIsBaseline(h: nat, v: nat, width: nat, height: nat, interleave: bool)
    requires h > 0 && v > 0
    ensures HMax([Factors(h, v)]) == h && VMax([Factors(h, v)]) == v
    ensures BaselineScans([Factors(h, v)], width, height, interleave) == [Lone(h, v, width, height)]
  {
    var fs := [Factors(h, v)];
    assert fs[..0] == [] && HMax(fs[..0]) == 0 && VMax(fs[..0]) == 0;
    assert BaselineScans(fs, width, height, interleave)[0].comps == [Comp(0, h, v)];
  }

  // ---------- where the orders agree ----------

  lemma {:induction false} RowJoin(c: nat, y: nat, x0: nat, a: nat, b: nat)
    ensures Row(c, y, x0, a + b) == Row(c, y, x0, a) + Row(c, y, x0 + a, b)
    decreases b
  {
    if b > 0 { RowJoin(c, y, x0, a, b - 1); }
  }

  lemma {:induction false} GridJoin(c: nat, y0: nat, x0: nat, a: nat, b: nat, h: nat)
    ensures Grid(c, y0, x0, a + b, h) == Grid(c, y0, x0, a, h) + Grid(c, y0 + a, x0, b, h)
    decreases b
  {
    if b > 0 { GridJoin(c, y0, x0, a, b - 1, h); }
  }

  lemma {:induction false} GridSplit(c: nat, a: nat, b: nat, n: nat, h: nat)
    requires n == a + b
    ensures Grid(c, 0, 0, n, h) == Grid(c, 0, 0, a, h) + Grid(c, a, 0, b, h)
  {
    GridJoin(c, 0, 0, a, b, h);
  }

  lemma {:induction false} LoneMcu(h: nat, v: nat, my: nat, mx: nat)
    ensures Mcu([Comp(0, h, v)], my, mx) == Grid(0, my * v, mx * h, v, h)
  {
    assert [Comp(0, h, v)][..0] == [];
  }

  // One more MCU one block high, after p blocks of its row.
  lemma {:induction false} NextFlat(h: nat, my: nat, m: nat, n: nat, p: nat, p': nat)
    requires n == m + 1 && p == m * h && p' == p + h && my * 1 == my
    requires Concat(UnitRow([Comp(0, h, 1)], my, m)) == Row(0, my, 0, p)
    ensures Concat(UnitRow([Comp(0, h, 1)], my, n)) == Row(0, my, 0, p')
  {
    var comps := [Comp(0, h, 1)];
    LoneMcu(h, 1, my, m);
    assert Grid(0, my, p, 1, h) == Grid(0, my, p, 0, h) + Row(0, my, p, h) == Row(0, my, p, h);
    ConcatLast(UnitRow(comps, my, m), Mcu(comps, my, m));
    RowJoin(0, my, 0, p, h);
  }

  // MCUs one block high, side by side, are a row.
  lemma {:induction false} FlatRow(h: nat, my: nat, mx: nat)
    ensures Concat(UnitRow([Comp(0, h, 1)], my, mx)) == Row(0, my, 0, mx * h)
  {
    if mx == 0 {
      assert 0 * h == 0;
    } else {
      var m: nat := mx - 1;
      FlatRow(h, my, m);
      OneMore(m, h);
      NextFlat(h, my, m, mx, m * h, mx * h);
    }
  }

  lemma {:induction false} OneMore(m: nat, h: nat)
    ensures (m + 1) * h == m * h + h
  {
  }

  // A row of MCUs is the block rows it covers.
  lemma {:induction false} LoneRow(h: nat, v: nat, my: nat, mcux: nat)
    requires v == 1 || mcux == 1
    ensures Concat(UnitRow([Comp(0, h, v)], my, mcux)) == Grid(0, my * v, 0, v, mcux * h)
  {
    if v == 1 {
      FlatRow(h, my, mcux);
      assert Grid(0, my, 0, 1, mcux * h) == Grid(0, my, 0, 0, mcux * h) + Row(0, my, 0, mcux * h);
    } else {
      LoneMcu(h, v, my, 0);
      assert 0 * h == 0 && 1 * h == h;
      ConcatLast(UnitRow([Comp(0, h, v)], my, 0), Mcu([Comp(0, h, v)], my, 0));
    }
  }

  // One more row of MCUs, p block rows above it, w blocks wide.
  lemma {:induction false} NextLoneRow(h: nat, v: nat, m: nat, n: nat, mcux: nat, p: nat, p': nat, w: nat)
    requires n == m + 1 && p' == p + v
    requires AllOf([Comp(0, h, v)], m, mcux) == Grid(0, 0, 0, p, w)
    requires Concat(UnitRow([Comp(0, h, v)], m, mcux)) == Grid(0, p, 0, v, w)
    ensures AllOf([Comp(0, h, v)], n, mcux) == Grid(0, 0, 0, p', w)
  {
    AllOfNext([Comp(0, h, v)], m, mcux);
    GridSplit(0, p, v, p', w);
    assert AllOf([Comp(0, h, v)], n, mcux) == Grid(0, 0, 0, p, w) + Grid(0, p, 0, v, w);
  }

  lemma {:induction false} LoneRows(h: nat, v: nat, mcuy: nat, mcux: nat, p: nat, w: nat)
    requires (v == 1 || mcux == 1) && p == mcuy * v && w == mcux * h
    ensures AllOf([Comp(0, h, v)], mcuy, mcux) == Grid(0, 0, 0, p, w)
  {
    if mcuy == 0 {
      NoLoneRows(h, v, mcux, p, w);
    } else {
      var m: nat := mcuy - 1;
      OneMore(m, v);
      LoneRows(h, v, m, mcux, m * v, w);
      LoneRow(h, v, m, mcux);
      NextLoneRow(h, v, m, mcuy, mcux, m * v, p, w);
    }
  }

  lemma {:induction false} NoLoneRows(h: nat, v: nat, mcux: nat, p: nat, w: nat)
    requires p == 0
    ensures AllOf([Comp(0, h, v)], 0, mcux) == Grid(0, 0, 0, p, w)
  {
  }

  // ---------- where they do not ----------

  lemma {:induction false} RowAt(c: nat, y: nat, x0: nat, h: nat, j: nat)
    requires j < h
    ensures |Row(c, y, x0, h)| == h && Row(c, y, x0, h)[j] == Ref(c, y, x0 + j)
  {
    RowSize(c, y, x0, h - 1);
    if j < h - 1 { RowAt(c, y, x0, h - 1, j); }
  }

  lemma {:induction false} RowSize(c: nat, y: nat, x0: nat, h: nat)
    ensures |Row(c, y, x0, h)| == h
  {
    if h > 0 { RowSize(c, y, x0, h - 1); }
  }

  lemma {:induction false} GridSize(c: nat, y0: nat, x0: nat, v: nat, h: nat)
    ensures |Grid(c, y0, x0, v, h)| == v * h
  {
    if v > 0 {
      GridSize(c, y0, x0, v - 1, h);
      RowSize(c, y0 + v - 1, x0, h);
      OneMore(v - 1, h);
    }
  }

  // The first row of a grid, and where the second starts.
  lemma {:induction false} GridTop(c: nat, y0: nat, x0: nat, v: nat, h: nat, n: nat)
    requires v == n + 1
    ensures Grid(c, y0, x0, v, h) == Row(c, y0, x0, h) + Grid(c, y0 + 1, x0, n, h)
  {
    GridJoin(c, y0, x0, 1, n, h);
    assert Grid(c, y0, x0, 1, h) == Grid(c, y0, x0, 0, h) + Row(c, y0, x0, h) == Row(c, y0, x0, h);
  }

  // The blocks of all units, counted.
  lemma {:induction false} UnitRowSize(h: nat, v: nat, my: nat, mcux: nat)
    ensures |Concat(UnitRow([Comp(0, h, v)], my, mcux))| == mcux * (v * h)
  {
    if mcux > 0 {
      var m: nat := mcux - 1;
      UnitRowSize(h, v, my, m);
      LoneMcu(h, v, my, m);
      GridSize(0, my * v, m * h, v, h);
      ConcatLast(UnitRow([Comp(0, h, v)], my, m), Mcu([Comp(0, h, v)], my, m));
      OneMore(m, v * h);
    }
  }

  lemma {:induction false} UnitRowsSize(h: nat, v: nat, mcuy: nat, mcux: nat)
    ensures |AllOf([Comp(0, h, v)], mcuy, mcux)| == mcuy * (mcux * (v * h))
  {
    if mcuy > 0 {
      var m: nat := mcuy - 1;
      UnitRowsSize(h, v, m, mcux);
      UnitRowSize(h, v, m, mcux);
      AllOfNext([Comp(0, h, v)], m, mcux);
      OneMore(m, mcux * (v * h));
    }
  }

  // The writer starts with its first MCU.
  lemma {:induction false} StartsWithMcu(h: nat, v: nat, mcuy: nat, mcux: nat)
    requires mcuy > 0 && mcux > 0
    ensures Grid(0, 0, 0, v, h) <= AllOf([Comp(0, h, v)], mcuy, mcux)
  {
    var m: nat := mcuy - 1;
    AllOfNext([Comp(0, h, v)], m, mcux);
    if m == 0 {
      RowStartsWithMcu(h, v, mcux);
    } else {
      StartsWithMcu(h, v, m, mcux);
    }
  }

  lemma {:induction false} RowStartsWithMcu(h: nat, v: nat, mcux: nat)
    requires mcux > 0
    ensures Grid(0, 0, 0, v, h) <= Concat(UnitRow([Comp(0, h, v)], 0, mcux))
  {
    var comps := [Comp(0, h, v)];
    var m: nat := mcux - 1;
    ConcatLast(UnitRow(comps, 0, m), Mcu(comps, 0, m));
    if m == 0 {
      LoneMcu(h, v, 0, 0);
      assert 0 * v == 0 && 0 * h == 0;
    } else {
      RowStartsWithMcu(h, v, m);
    }
  }

  lemma {:induction false} SecondRowStarts(h: nat, v: nat)
    requires h > 0 && v > 1
    ensures |Grid(0, 0, 0, v, h)| > h && Grid(0, 0, 0, v, h)[h] == Ref(0, 1, 0)
  {
    GridTop(0, 0, 0, v, h, v - 1);
    GridTop(0, 1, 0, v - 1, h, v - 2);
    RowSize(0, 0, 0, h);
    RowAt(0, 1, 0, h, 0);
  }

  lemma {:induction false} FirstRowGoesOn(h: nat, rows: nat, cols: nat)
    requires h < cols && rows > 0
    ensures |Grid(0, 0, 0, rows, cols)| > h && Grid(0, 0, 0, rows, cols)[h] == Ref(0, 0, h)
  {
    GridTop(0, 0, 0, rows, cols, rows - 1);
    RowAt(0, 0, 0, cols, h);
  }

  // MCUs two blocks high and not alone in their row: the writer's block h is the second row's first, the standard's is
  // the first row's next.
  lemma {:induction false} SecondRowTooEarly(h: nat, v: nat, mcuy: nat, mcux: nat, rows: nat, cols: nat)
    requires h > 0 && v > 1 && mcuy > 0 && mcux > 0 && h < cols && rows > 0
    ensures AllOf([Comp(0, h, v)], mcuy, mcux) != Grid(0, 0, 0, rows, cols)
  {
    StartsWithMcu(h, v, mcuy, mcux);
    SecondRowStarts(h, v);
    FirstRowGoesOn(h, rows, cols);
  }

  // ---------- both ----------

  // The condition: MCUs one block high or a single column of them, and no padding blocks.
  predicate RasterLike(h: nat, v: nat, width: nat, height: nat)
    requires h > 0 && v > 0
  {
    var g := Lone(h, v, width, height);
    g.mcuy * v == CeilDiv(height, 8) && g.mcux * h == CeilDiv(width, 8) && (v == 1 || g.mcux == 1)
  }

  lemma {:induction false} CeilCovers(size: nat, f: nat, m: nat, n: nat)
    requires f > 0 && size > 0 && m == CeilDiv(size, 8 * f) && n == CeilDiv(size, 8)
    ensures m > 0 && n > 0 && m * f >= n
  {
    var w := 8 * f;
    var r := (size + w - 1) % w;
    assert size + w - 1 == m * w + r;
    assert m * w == 8 * (m * f);
  }

  lemma {:induction false} MoreTimes(a: nat, b: nat, r: nat, c: nat)
    requires a > r && b >= c > 0
    ensures a * b > r * c && b * a > c * r
  {
    assert a * b >= a * c >= (r + 1) * c;
  }

  lemma {:induction false} SameProduct(a: nat, b: nat, r: nat, c: nat)
    requires a >= r > 0 && b >= c > 0 && a * b == r * c
    ensures a == r && b == c
  {
    if a > r {
      MoreTimes(a, b, r, c);
    } else if b > c {
      MoreTimes(b, a, c, r);
    }
  }

  lemma {:induction false} Regroup(mcuy: nat, mcux: nat, v: nat, h: nat)
    ensures mcuy * (mcux * (v * h)) == (mcuy * v) * (mcux * h)
  {
    assert mcux * (v * h) == v * (mcux * h);
    assert mcuy * (v * (mcux * h)) == (mcuy * v) * (mcux * h);
  }

  // A file of one component is ordered as section A.2.2 says exactly under that condition; 1 x 1 factors always meet it.
  lemma {:induction false} LoneOrder(h: nat, v: nat, width: nat, height: nat)
    requires h > 0 && v > 0 && width > 0 && height > 0
    ensures Blocks(Lone(h, v, width, height)) == Raster(width, height) <==> RasterLike(h, v, width, height)
    ensures h == 1 && v == 1 ==> RasterLike(h, v, width, height)
  {
    var mcuy, mcux := CeilDiv(height, 8 * v), CeilDiv(width, 8 * h);
    var rows, cols := CeilDiv(height, 8), CeilDiv(width, 8);
    CeilCovers(height, v, mcuy, rows);
    CeilCovers(width, h, mcux, cols);
    if v == 1 || mcux == 1 {
      LoneRows(h, v, mcuy, mcux, mcuy * v, mcux * h);
    }
    if Blocks(Lone(h, v, width, height)) == Raster(width, height) {
      UnitRowsSize(h, v, mcuy, mcux);
      Regroup(mcuy, mcux, v, h);
      GridSize(0, 0, 0, rows, cols);
      SameProduct(mcuy * v, mcux * h, rows, cols);
      if v > 1 && mcux > 1 {
        OneMore(mcux - 1, h);
        SecondRowTooEarly(h, v, mcuy, mcux, rows, cols);
      }
    }
  }
}
