// Where each data unit stands in a scan (ITU-T T.81, section A.2.3), and that the scans of a file carry the whole image.
module JpegPlaces {
  import opened Common
  import opened JpegValues
  import opened JpegScan
  import opened JpegUnits
  import opened JpegHuffman
  import opened JpegFile
  import opened JpegHeader
  import opened JpegDecoder
  import L = JpegLosslessFile
  import LD = JpegLosslessDecoder

  // ---------- within an MCU ----------

  // How many data units the first i components put into an MCU.
  ghost function Offset(comps: seq<Comp>, i: nat): nat
    requires i <= |comps|
  {
    if i == 0 then 0 else Offset(comps, i - 1) + comps[i - 1].h * comps[i - 1].v
  }

  lemma {:induction false} RowPlace(c: nat, y: nat, x0: nat, h: nat)
    ensures |Row(c, y, x0, h)| == h && forall x: nat :: x < h ==> Row(c, y, x0, h)[x] == Ref(c, y, x0 + x)
  {
    if h > 0 { RowPlace(c, y, x0, h - 1); }
  }

  lemma {:induction false} GridPlace(c: nat, y0: nat, x0: nat, v: nat, h: nat, y: nat, x: nat)
    requires y < v && x < h
    ensures |Grid(c, y0, x0, v, h)| == h * v && y * h + x < h * v
    ensures Grid(c, y0, x0, v, h)[y * h + x] == Ref(c, y0 + y, x0 + x)
  {
    GridSize(c, y0, x0, v, h);
    GridSize(c, y0, x0, v - 1, h);
    RowPlace(c, y0 + v - 1, x0, h);
    RowEnds(y, v, h, x);
    if y < v - 1 {
      GridPlace(c, y0, x0, v - 1, h, y, x);
    }
  }

  lemma {:induction false} RowEnds(y: nat, v: nat, h: nat, x: nat)
    requires y < v && x < h
    ensures y * h + x < h * v && (y < v - 1 ==> y * h + x < h * (v - 1)) && (y == v - 1 ==> y * h == h * (v - 1))
  {
    MulMono(y + 1, v, h);
    assert (y + 1) * h == y * h + h;
    if y < v - 1 { MulMono(y + 1, v - 1, h); }
  }

  lemma {:induction false} GridSize(c: nat, y0: nat, x0: nat, v: nat, h: nat)
    ensures |Grid(c, y0, x0, v, h)| == h * v
  {
    if v > 0 {
      GridSize(c, y0, x0, v - 1, h);
      RowPlace(c, y0 + v - 1, x0, h);
      assert h * (v - 1) + h == h * v;
    }
  }

  lemma {:induction false} OffsetPrefix(comps: seq<Comp>, n: nat, i: nat)
    requires i <= n <= |comps|
    ensures Offset(comps[..n], i) == Offset(comps, i)
  {
    if i > 0 { OffsetPrefix(comps, n, i - 1); }
  }

  lemma {:induction false} McuSize(comps: seq<Comp>, my: nat, mx: nat)
    ensures |Mcu(comps, my, mx)| == Offset(comps, |comps|)
  {
    if comps != [] {
      var n := |comps| - 1;
      McuSize(comps[..n], my, mx);
      OffsetPrefix(comps, n, n);
      GridSize(comps[n].c, my * comps[n].v, mx * comps[n].h, comps[n].v, comps[n].h);
    }
  }

  // Components in scan order, each with v rows of h data units.
  lemma {:induction false} McuPlace(comps: seq<Comp>, my: nat, mx: nat, i: nat, y: nat, x: nat)
    requires i < |comps| && y < comps[i].v && x < comps[i].h
    ensures Offset(comps, i) + y * comps[i].h + x < |Mcu(comps, my, mx)|
    ensures Mcu(comps, my, mx)[Offset(comps, i) + y * comps[i].h + x] == Ref(comps[i].c, my * comps[i].v + y, mx * comps[i].h + x)
  {
    var n := |comps| - 1;
    var before, last := comps[..n], comps[n];
    McuSize(before, my, mx);
    OffsetPrefix(comps, n, n);
    if i == n {
      GridPlace(last.c, my * last.v, mx * last.h, last.v, last.h, y, x);
      InSecond(Mcu(before, my, mx), Grid(last.c, my * last.v, mx * last.h, last.v, last.h), y * last.h + x);
    } else {
      McuPlace(before, my, mx, i, y, x);
      OffsetPrefix(comps, n, i);
      InFirst(Mcu(before, my, mx), Grid(last.c, my * last.v, mx * last.h, last.v, last.h), Offset(comps, i) + y * comps[i].h + x);
    }
  }

  lemma {:induction false} InFirst<T>(a: seq<T>, b: seq<T>, k: nat)
    requires k < |a|
    ensures (a + b)[k] == a[k]
  {
  }

  lemma {:induction false} InSecond<T>(a: seq<T>, b: seq<T>, k: nat)
    requires k < |b|
    ensures |a| + k < |a + b| && (a + b)[|a| + k] == b[k]
  {
  }

  // ---------- within a scan ----------

  lemma {:induction false} UnitRowPlace(comps: seq<Comp>, my: nat, mcux: nat)
    ensures |UnitRow(comps, my, mcux)| == mcux
    ensures forall mx: nat :: mx < mcux ==> UnitRow(comps, my, mcux)[mx] == Mcu(comps, my, mx)
  {
    if mcux > 0 { UnitRowPlace(comps, my, mcux - 1); }
  }

  lemma {:induction false} UnitsSize(comps: seq<Comp>, mcuy: nat, mcux: nat)
    ensures |Concat(UnitRows(comps, mcuy, mcux))| == mcux * mcuy
  {
    if mcuy > 0 {
      UnitsSize(comps, mcuy - 1, mcux);
      ConcatLast(UnitRows(comps, mcuy - 1, mcux), UnitRow(comps, mcuy - 1, mcux));
      UnitRowPlace(comps, mcuy - 1, mcux);
      assert mcux * (mcuy - 1) + mcux == mcux * mcuy;
    }
  }

  lemma {:induction false} UnitPlace(comps: seq<Comp>, mcuy: nat, mcux: nat, my: nat, mx: nat)
    requires my < mcuy && mx < mcux
    ensures my * mcux + mx < |Concat(UnitRows(comps, mcuy, mcux))|
    ensures Concat(UnitRows(comps, mcuy, mcux))[my * mcux + mx] == Mcu(comps, my, mx)
  {
    var before, last := Concat(UnitRows(comps, mcuy - 1, mcux)), UnitRow(comps, mcuy - 1, mcux);
    UnitsSize(comps, mcuy - 1, mcux);
    UnitRowPlace(comps, mcuy - 1, mcux);
    ConcatLast(UnitRows(comps, mcuy - 1, mcux), last);
    RowEnds(my, mcuy, mcux, mx);
    if my == mcuy - 1 {
      InSecond(before, last, mx);
    } else {
      UnitPlace(comps, mcuy - 1, mcux, my, mx);
      InFirst(before, last, my * mcux + mx);
    }
  }

  // Main: the place of every data unit of a scan. MCUs come row by row; in MCU (my, mx) the components come in scan
  // order, each with its rows of data units.
  lemma {:induction false} DataUnitPlace(g: Geometry, my: nat, mx: nat, i: nat, y: nat, x: nat)
    requires my < g.mcuy && mx < g.mcux && i < |g.comps| && y < g.comps[i].v && x < g.comps[i].h
    ensures |g.Units()| == g.mcux * g.mcuy && my * g.mcux + mx < |g.Units()|
    ensures var unit, at := g.Units()[my * g.mcux + mx], Offset(g.comps, i) + y * g.comps[i].h + x;
            |unit| == Offset(g.comps, |g.comps|) && at < |unit|
            && unit[at] == Ref(g.comps[i].c, my * g.comps[i].v + y, mx * g.comps[i].h + x)
  {
    UnitsSize(g.comps, g.mcuy, g.mcux);
    UnitPlace(g.comps, g.mcuy, g.mcux, my, mx);
    McuSize(g.comps, my, mx);
    McuPlace(g.comps, my, mx, i, y, x);
  }

  // ---------- within a file ----------

  // The one scan of an interleaved file, and of a lone component.
  lemma {:induction false} OneScan(fs: seq<Factors>, width: nat, height: nat, interleave: bool) returns (g: Geometry)
    requires HMax(fs) > 0 && VMax(fs) > 0 && (interleave || |fs| == 1)
    ensures BaselineScans(fs, width, height, interleave) == [g]
    ensures |g.comps| == |fs| && forall i :: 0 <= i < |fs| ==> g.comps[i] == Comp(i, fs[i].h, fs[i].v)
    ensures height <= g.mcuy * (8 * VMax(fs)) && width <= g.mcux * (8 * HMax(fs))
    ensures (g.mcuy > 0 ==> (g.mcuy - 1) * (8 * VMax(fs)) < height) && (g.mcux > 0 ==> (g.mcux - 1) * (8 * HMax(fs)) < width)
  {
    CeilDivIs(height, 8 * VMax(fs));
    CeilDivIs(width, 8 * HMax(fs));
    g := BaselineScans(fs, width, height, interleave)[0];
  }

  // The scans of a file that is not interleaved.
  lemma {:induction false} OwnScan(fs: seq<Factors>, width: nat, height: nat, c: nat) returns (g: Geometry)
    requires HMax(fs) > 0 && VMax(fs) > 0 && 1 < |fs| && c < |fs|
    ensures |BaselineScans(fs, width, height, false)| == |fs| && BaselineScans(fs, width, height, false)[c] == g
    ensures g == Geometry([Comp(c, 1, 1)], CeilDiv(CeilDiv(height * fs[c].v, VMax(fs)), 8),
                          CeilDiv(CeilDiv(width * fs[c].h, HMax(fs)), 8))
  {
    g := BaselineScans(fs, width, height, false)[c];
  }

  // Main: in the one scan of an interleaved file component i of the frame stands with its own factors, at index i.
  lemma {:induction false} InterleavedPlace(fs: seq<Factors>, width: nat, height: nat, g: Geometry, my: nat, mx: nat, i: nat, y: nat, x: nat)
    requires HMax(fs) > 0 && VMax(fs) > 0 && i < |fs| && y < fs[i].v && x < fs[i].h
    requires BaselineScans(fs, width, height, true) == [g] && my * (8 * VMax(fs)) < height && mx * (8 * HMax(fs)) < width
    ensures my < g.mcuy && mx < g.mcux && |g.comps| == |fs| && g.comps[i] == Comp(i, fs[i].h, fs[i].v)
    ensures my * g.mcux + mx < |g.Units()|
    ensures var unit, at := g.Units()[my * g.mcux + mx], Offset(g.comps, i) + y * g.comps[i].h + x;
            at < |unit| && unit[at] == Ref(i, my * g.comps[i].v + y, mx * g.comps[i].h + x)
  {
    var one := OneScan(fs, width, height, true);
    assert [g][0] == [one][0];
    Below(my, 8 * VMax(fs), height, g.mcuy);
    Below(mx, 8 * HMax(fs), width, g.mcux);
    DataUnitPlace(g, my, mx, i, y, x);
  }

  lemma {:induction false} Below(m: nat, unit: nat, size: nat, n: nat)
    requires m * unit < size <= n * unit
    ensures m < n
  {
    if m >= n { MulMono(n, m, unit); }
  }

  // Line `line` of a component with factor v starts inside the image: line * side samples of it, of `most` lines of the
  // image to v of its own, come before.
  ghost predicate Inside(line: nat, side: nat, size: nat, factor: nat, most: nat) { line * (side * most) < size * factor }

  // The MCU lines there are reach every such line.
  lemma {:induction false} McusReach(line: nat, side: nat, size: nat, factor: nat, most: nat, n: nat)
    requires Inside(line, side, size, factor, most) && size <= n * (side * most)
    ensures line < n * factor
  {
    if line >= n * factor {
      MulMono(n * factor, line, side * most);
      MulMono(size, n * (side * most), factor);
      Shuffle(n, factor, side * most);
    }
  }

  lemma {:induction false} Shuffle(n: nat, f: nat, s: nat)
    ensures n * f * s == n * s * f
  {
  }

  // So do the lines of a scan of the component alone.
  lemma {:induction false} LinesReach(line: nat, side: nat, size: nat, factor: nat, most: nat, own: nat, n: nat)
    requires Inside(line, side, size, factor, most) && size * factor <= own * most && own <= n * side
    ensures line < n
  {
    if line >= n {
      MulMono(n, line, side * most);
      MulMono(own, n * side, most);
      Regroup(n, side, most);
    }
  }

  lemma {:induction false} Regroup(n: nat, f: nat, s: nat)
    ensures n * f * s == n * (f * s)
  {
  }

  lemma {:induction false} OwnLinesReach(line: nat, size: nat, factor: nat, most: nat)
    requires most > 0 && Inside(line, 8, size, factor, most)
    ensures line < CeilDiv(CeilDiv(size * factor, most), 8)
  {
    var own := CeilDiv(size * factor, most);
    CeilDivIs(size * factor, most);
    CeilDivIs(own, 8);
    LinesReach(line, 8, size, factor, most, own, CeilDiv(own, 8));
  }

  // Main: the scans of a baseline file carry every block of every component that starts inside the image.
  lemma {:induction false} EveryBlockCarried(fs: seq<Factors>, width: nat, height: nat, interleave: bool, c: nat, row: nat, col: nat)
    requires HMax(fs) > 0 && VMax(fs) > 0 && c < |fs|
    requires Inside(row, 8, height, fs[c].v, VMax(fs)) && Inside(col, 8, width, fs[c].h, HMax(fs))
    ensures exists g :: g in BaselineScans(fs, width, height, interleave) && InGrid(g.comps, g.mcuy, g.mcux, Ref(c, row, col))
  {
    var r := Ref(c, row, col);
    if interleave || |fs| == 1 {
      var g := OneScan(fs, width, height, interleave);
      McusReach(row, 8, height, fs[c].v, VMax(fs), g.mcuy);
      McusReach(col, 8, width, fs[c].h, HMax(fs), g.mcux);
      assert g in BaselineScans(fs, width, height, interleave) && InGridOf(g.comps[c], g.mcuy, g.mcux, r);
    } else {
      var g := OwnScan(fs, width, height, c);
      OwnLinesReach(row, height, fs[c].v, VMax(fs));
      OwnLinesReach(col, width, fs[c].h, HMax(fs));
      assert g in BaselineScans(fs, width, height, interleave) && InGridOf(g.comps[0], g.mcuy, g.mcux, r);
    }
  }

  // Main: without a list of its own, the scans of a lossless file carry every sample of every component.
  lemma {:induction false} EverySampleCarried(r: L.Request, interleave: bool, c: nat, row: nat, col: nat)
    requires HMax(r.fs) > 0 && VMax(r.fs) > 0 && c < |r.fs|
    requires forall cidx :: cidx in L.ScanLists(|r.fs|, interleave, None) ==> r.Scannable(cidx)
    requires Inside(row, 1, r.height, r.fs[c].v, VMax(r.fs)) && Inside(col, 1, r.width, r.fs[c].h, HMax(r.fs))
    ensures LD.SomeCarries(r, L.ScanLists(|r.fs|, interleave, None), Ref(c, row, col))
  {
    var lists, s := L.ScanLists(|r.fs|, interleave, None), Ref(c, row, col);
    if (interleave || |r.fs| == 1) && |r.fs| != 1 {
      assert lists[0] in lists;
      var p := r.Plan(lists[0]);
      CeilDivIs(r.height, VMax(r.fs));
      CeilDivIs(r.width, HMax(r.fs));
      McusReach(row, 1, r.height, r.fs[c].v, VMax(r.fs), p.mcuy);
      McusReach(col, 1, r.width, r.fs[c].h, HMax(r.fs), p.mcux);
      assert InGridOf(p.comps[c], p.mcuy, p.mcux, s);
      assert LD.Carried(r, lists[0], s);
    } else {
      var k := if |r.fs| == 1 then 0 else c;
      assert lists[k] == [c] && lists[k] in lists;
      var p := r.Plan(lists[k]);
      CeilDivIs(r.height * r.fs[c].v, VMax(r.fs));
      CeilDivIs(r.width * r.fs[c].h, HMax(r.fs));
      LinesReach(row, 1, r.height, r.fs[c].v, VMax(r.fs), p.mcuy, p.mcuy);
      LinesReach(col, 1, r.width, r.fs[c].h, HMax(r.fs), p.mcux, p.mcux);
      assert InGridOf(p.comps[0], p.mcuy, p.mcux, s);
      assert LD.Carried(r, lists[k], s);
    }
  }
}
