// The MCUs of a scan: which data units they hold, and that together they hold each exactly once
// (ITU-T T.81, section A.2).
module JpegUnits {
  import opened JpegValues
  import opened JpegScan

  // A component of the scan and its sampling factors within the scan's MCUs.
  datatype Comp = Comp(c: nat, h: nat, v: nat)

  // h data units of one row.
  function Row(c: nat, y: nat, x0: nat, h: nat): seq<Ref> {
    if h == 0 then [] else Row(c, y, x0, h - 1) + [Ref(c, y, x0 + h - 1)]
  }

  // v rows of h data units.
  function Grid(c: nat, y0: nat, x0: nat, v: nat, h: nat): seq<Ref> {
    if v == 0 then [] else Grid(c, y0, x0, v - 1, h) + Row(c, y0 + v - 1, x0, h)
  }

  // The MCU in column mx and row my: for every component, its h by v data units.
  function Mcu(comps: seq<Comp>, my: nat, mx: nat): seq<Ref> {
    if comps == [] then []
    else
      var last := comps[|comps| - 1];
      Mcu(comps[..|comps| - 1], my, mx) + Grid(last.c, my * last.v, mx * last.h, last.v, last.h)
  }

  ghost predicate Distinct(comps: seq<Comp>) { forall i, j :: 0 <= i < j < |comps| ==> comps[i].c != comps[j].c }

  // How often r is listed.
  ghost function Count(list: seq<Ref>, r: Ref): nat {
    if list == [] then 0 else Count(list[..|list| - 1], r) + Once(list[|list| - 1] == r)
  }

  lemma {:induction false} CountConcat(a: seq<Ref>, b: seq<Ref>, r: Ref)
    ensures Count(a + b, r) == Count(a, r) + Count(b, r)
  {
    if b == [] {
      assert a + b == a;
    } else {
      var n := |b| - 1;
      assert (a + b)[..|a| + n] == a + b[..n];
      CountConcat(a, b[..n], r);
    }
  }

  ghost function Once(b: bool): nat { if b then 1 else 0 }

  lemma {:induction false} RowCount(c: nat, y: nat, x0: nat, h: nat, r: Ref)
    ensures Count(Row(c, y, x0, h), r) == Once(r.c == c && r.row == y && x0 <= r.col < x0 + h)
  {
    if h > 0 {
      RowCount(c, y, x0, h - 1, r);
      var last := [Ref(c, y, x0 + h - 1)];
      CountConcat(Row(c, y, x0, h - 1), last, r);
      assert Count(last[..0], r) == 0;
    }
  }

  lemma {:induction false} GridCount(c: nat, y0: nat, x0: nat, v: nat, h: nat, r: Ref)
    ensures Count(Grid(c, y0, x0, v, h), r) == Once(r.c == c && y0 <= r.row < y0 + v && x0 <= r.col < x0 + h)
  {
    if v == 0 {
      assert Grid(c, y0, x0, v, h) == [];
    } else {
      var u: nat := v - 1;
      GridCount(c, y0, x0, u, h, r);
      NextRow(c, y0, x0, u, v, h, r);
    }
  }

  lemma {:induction false} NextRow(c: nat, y0: nat, x0: nat, u: nat, v: nat, h: nat, r: Ref)
    requires v == u + 1
    requires Count(Grid(c, y0, x0, u, h), r) == Once(r.c == c && y0 <= r.row < y0 + u && x0 <= r.col < x0 + h)
    ensures Count(Grid(c, y0, x0, v, h), r) == Once(r.c == c && y0 <= r.row < y0 + v && x0 <= r.col < x0 + h)
  {
    RowCount(c, y0 + u, x0, h, r);
    CountConcat(Grid(c, y0, x0, u, h), Row(c, y0 + u, x0, h), r);
    assert Grid(c, y0, x0, v, h) == Grid(c, y0, x0, u, h) + Row(c, y0 + u, x0, h);
  }

  // r lies in MCU (my, mx).
  ghost predicate InMcu(comps: seq<Comp>, my: nat, mx: nat, r: Ref) {
    exists i :: 0 <= i < |comps| && InCell(comps[i], my, mx, r)
  }

  ghost predicate InCell(k: Comp, my: nat, mx: nat, r: Ref) {
    r.c == k.c && my * k.v <= r.row < my * k.v + k.v && mx * k.h <= r.col < mx * k.h + k.h
  }

  lemma {:induction false} McuCount(comps: seq<Comp>, my: nat, mx: nat, r: Ref)
    requires Distinct(comps)
    ensures Count(Mcu(comps, my, mx), r) == Once(InMcu(comps, my, mx, r))
  {
    if comps != [] {
      var n := |comps| - 1;
      var before, last := comps[..n], comps[n];
      McuCount(before, my, mx, r);
      GridCount(last.c, my * last.v, mx * last.h, last.v, last.h, r);
      CountConcat(Mcu(before, my, mx), Grid(last.c, my * last.v, mx * last.h, last.v, last.h), r);
      if InMcu(before, my, mx, r) {
        var i :| 0 <= i < |before| && InCell(before[i], my, mx, r);
        assert InCell(comps[i], my, mx, r);
      }
      if InCell(last, my, mx, r) {
        assert InCell(comps[n], my, mx, r);
      }
      if InMcu(comps, my, mx, r) && !InCell(last, my, mx, r) {
        var i :| 0 <= i < |comps| && InCell(comps[i], my, mx, r);
        assert InCell(before[i], my, mx, r);
      }
    }
  }

  // r lies in one of the first mx MCUs of row my.
  ghost predicate InRow(comps: seq<Comp>, my: nat, mx: nat, r: Ref) {
    exists i :: 0 <= i < |comps| && InRowOf(comps[i], my, mx, r)
  }

  ghost predicate InRowOf(k: Comp, my: nat, mx: nat, r: Ref) {
    r.c == k.c && my * k.v <= r.row < my * k.v + k.v && r.col < mx * k.h
  }

  // r lies in one of the first my rows of mcux MCUs.
  ghost predicate InGrid(comps: seq<Comp>, my: nat, mcux: nat, r: Ref) {
    exists i :: 0 <= i < |comps| && InGridOf(comps[i], my, mcux, r)
  }

  ghost predicate InGridOf(k: Comp, my: nat, mcux: nat, r: Ref) {
    r.c == k.c && r.row < my * k.v && r.col < mcux * k.h
  }

  lemma {:induction false} NextMcu(comps: seq<Comp>, my: nat, mx: nat, r: Ref)
    requires Distinct(comps)
    ensures Once(InRow(comps, my, mx + 1, r)) == Once(InRow(comps, my, mx, r)) + Once(InMcu(comps, my, mx, r))
  {
    if i :| 0 <= i < |comps| && comps[i].c == r.c {
      forall j | 0 <= j < |comps| && j != i ensures comps[j].c != r.c {
        assert comps[j].c != comps[i].c;
      }
      assert (mx + 1) * comps[i].h == mx * comps[i].h + comps[i].h;
      OnlyComp(comps, i, my, mx, r);
      OnlyComp(comps, i, my, mx + 1, r);
    }
  }

  // Only the component of r matters.
  lemma {:induction false} OnlyComp(comps: seq<Comp>, i: nat, my: nat, mx: nat, r: Ref)
    requires i < |comps| && comps[i].c == r.c && forall j :: 0 <= j < |comps| && j != i ==> comps[j].c != r.c
    ensures InRow(comps, my, mx, r) == InRowOf(comps[i], my, mx, r)
    ensures InMcu(comps, my, mx, r) == InCell(comps[i], my, mx, r)
    ensures InGrid(comps, my, mx, r) == InGridOf(comps[i], my, mx, r)
  {
  }

  lemma {:induction false} NextMcuRow(comps: seq<Comp>, my: nat, mcux: nat, r: Ref)
    requires Distinct(comps)
    ensures Once(InGrid(comps, my + 1, mcux, r)) == Once(InGrid(comps, my, mcux, r)) + Once(InRow(comps, my, mcux, r))
  {
    if i :| 0 <= i < |comps| && comps[i].c == r.c {
      forall j | 0 <= j < |comps| && j != i ensures comps[j].c != r.c {
        assert comps[j].c != comps[i].c;
      }
      assert (my + 1) * comps[i].v == my * comps[i].v + comps[i].v;
      OnlyComp(comps, i, my, mcux, r);
      OnlyComp(comps, i, my + 1, mcux, r);
    }
  }

  // Every data unit of the padded MCU grid exactly once, and nothing else.
  ghost predicate EachOnce(list: seq<Ref>, comps: seq<Comp>, mcuy: nat, mcux: nat) {
    forall r :: Count(list, r) == Once(InGrid(comps, mcuy, mcux, r))
  }

  // One row of MCUs, left to right.
  function UnitRow(comps: seq<Comp>, my: nat, mcux: nat): seq<seq<Ref>> {
    if mcux == 0 then [] else UnitRow(comps, my, mcux - 1) + [Mcu(comps, my, mcux - 1)]
  }

  // Rows of MCUs, top to bottom.
  function UnitRows(comps: seq<Comp>, mcuy: nat, mcux: nat): seq<seq<seq<Ref>>> {
    if mcuy == 0 then [] else UnitRows(comps, mcuy - 1, mcux) + [UnitRow(comps, mcuy - 1, mcux)]
  }

  lemma {:induction false} ConcatLast<T>(a: seq<seq<T>>, b: seq<T>)
    ensures Concat(a + [b]) == Concat(a) + b
  {
    assert (a + [b])[..|a|] == a;
  }

  // The data units of the first my MCU rows, in order.
  function AllOf(comps: seq<Comp>, my: nat, mcux: nat): seq<Ref> { Concat(Concat(UnitRows(comps, my, mcux))) }

  lemma {:induction false} AllOfNext(comps: seq<Comp>, my: nat, mcux: nat)
    ensures AllOf(comps, my + 1, mcux) == AllOf(comps, my, mcux) + Concat(UnitRow(comps, my, mcux))
  {
    ConcatLast(UnitRows(comps, my, mcux), UnitRow(comps, my, mcux));
    ConcatAppend(Concat(UnitRows(comps, my, mcux)), UnitRow(comps, my, mcux));
  }

  lemma {:induction false} CountLast(a: seq<seq<Ref>>, b: seq<Ref>, r: Ref)
    ensures Count(Concat(a + [b]), r) == Count(Concat(a), r) + Count(b, r)
  {
    ConcatLast(a, b);
    CountConcat(Concat(a), b, r);
  }

  lemma {:induction false} CountLastRow(a: seq<seq<seq<Ref>>>, b: seq<seq<Ref>>, r: Ref)
    ensures Count(Concat(Concat(a + [b])), r) == Count(Concat(Concat(a)), r) + Count(Concat(b), r)
  {
    ConcatLast(a, b);
    ConcatAppend(Concat(a), b);
    CountConcat(Concat(Concat(a)), Concat(b), r);
  }

  lemma {:induction false} NothingYet(comps: seq<Comp>, my: nat, r: Ref)
    ensures Count(Concat(UnitRow(comps, my, 0)), r) == 0 && !InRow(comps, my, 0, r)
  {
  }

  lemma {:induction false} NoRowYet(comps: seq<Comp>, mcux: nat, r: Ref)
    ensures Count(Concat(Concat(UnitRows(comps, 0, mcux))), r) == 0 && !InGrid(comps, 0, mcux, r)
  {
  }

  lemma {:induction false} UnitRowCount(comps: seq<Comp>, my: nat, mcux: nat, r: Ref)
    requires Distinct(comps)
    ensures Count(Concat(UnitRow(comps, my, mcux)), r) == Once(InRow(comps, my, mcux, r))
  {
    if mcux == 0 {
      NothingYet(comps, my, r);
    } else {
      var mx: nat := mcux - 1;
      UnitRowCount(comps, my, mx, r);
      NextUnit(comps, my, mx, mcux, r);
    }
  }

  lemma {:induction false} NextUnit(comps: seq<Comp>, my: nat, mx: nat, mcux: nat, r: Ref)
    requires Distinct(comps) && mcux == mx + 1 && Count(Concat(UnitRow(comps, my, mx)), r) == Once(InRow(comps, my, mx, r))
    ensures Count(Concat(UnitRow(comps, my, mcux)), r) == Once(InRow(comps, my, mcux, r))
  {
    CountLast(UnitRow(comps, my, mx), Mcu(comps, my, mx), r);
    McuCount(comps, my, mx, r);
    NextMcu(comps, my, mx, r);
  }

  lemma {:induction false} UnitRowsCount(comps: seq<Comp>, mcuy: nat, mcux: nat, r: Ref)
    requires Distinct(comps)
    ensures Count(Concat(Concat(UnitRows(comps, mcuy, mcux))), r) == Once(InGrid(comps, mcuy, mcux, r))
  {
    if mcuy == 0 {
      NoRowYet(comps, mcux, r);
    } else {
      UnitRowsCount(comps, mcuy - 1, mcux, r);
      NextUnitRow(comps, mcuy - 1, mcux, Concat(Concat(UnitRows(comps, mcuy - 1, mcux))), r);
    }
  }

  lemma {:induction false} NextUnitRow(comps: seq<Comp>, my: nat, mcux: nat, before: seq<Ref>, r: Ref)
    requires Distinct(comps) && before == Concat(Concat(UnitRows(comps, my, mcux)))
    requires Count(before, r) == Once(InGrid(comps, my, mcux, r))
    ensures Count(Concat(Concat(UnitRows(comps, my + 1, mcux))), r) == Once(InGrid(comps, my + 1, mcux, r))
  {
    CountLastRow(UnitRows(comps, my, mcux), UnitRow(comps, my, mcux), r);
    UnitRowCount(comps, my, mcux, r);
    NextMcuRow(comps, my, mcux, r);
  }

  // The writer's loops over the components of one MCU, their rows and their columns.
  method McuUnits(comps: seq<Comp>, my: nat, mx: nat) returns (unit: seq<Ref>)
    ensures unit == Mcu(comps, my, mx)
  {
    unit := [];
    for i := 0 to |comps|
      invariant unit == Mcu(comps[..i], my, mx)
    {
      var c, h, v := comps[i].c, comps[i].h, comps[i].v;
      ghost var before := unit;
      assert before + [] == before;
      for y := 0 to v
        invariant unit == before + Grid(c, my * v, mx * h, y, h)
      {
        ghost var rows := unit;
        assert rows + [] == rows;
        for x := 0 to h
          invariant unit == rows + Row(c, my * v + y, mx * h, x)
        {
          unit := unit + [Ref(c, my * v + y, mx * h + x)];
        }
      }
      assert comps[..i + 1][..i] == comps[..i];
    }
    assert comps[..|comps|] == comps;
  }

  // The writer's loops over MCU rows and columns.
  method Units(comps: seq<Comp>, mcuy: nat, mcux: nat) returns (units: seq<seq<Ref>>)
    requires Distinct(comps)
    ensures units == Concat(UnitRows(comps, mcuy, mcux)) && EachOnce(Concat(units), comps, mcuy, mcux)
  {
    units := [];
    for my := 0 to mcuy
      invariant units == Concat(UnitRows(comps, my, mcux))
    {
      ghost var before := units;
      assert before + [] == before;
      for mx := 0 to mcux
        invariant units == before + UnitRow(comps, my, mx)
      {
        var unit := McuUnits(comps, my, mx);
        units := units + [unit];
      }
      ConcatLast(UnitRows(comps, my, mcux), UnitRow(comps, my, mcux));
    }
    forall r ensures Count(Concat(units), r) == Once(InGrid(comps, mcuy, mcux, r)) {
      UnitRowsCount(comps, mcuy, mcux, r);
    }
  }
}
