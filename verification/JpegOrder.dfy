// In the lossless scan order, every neighbour a prediction reads has already been written, so a decoder that
// undoes the differences one by one has it at hand (ITU-T T.81, sections A.2.3, H.1.1 and H.1.2.1).
module JpegOrder {
  import opened Common
  import opened JpegValues
  import opened JpegScan
  import opened JpegUnits
  import opened JpegLossless

  lemma {:induction false} Counted(list: seq<Ref>, r: Ref)
    ensures r in list <==> Count(list, r) > 0
  {
    if list != [] {
      var n := |list| - 1;
      Counted(list[..n], r);
      assert list == list[..n] + [list[n]];
    }
  }

  lemma {:induction false} CausalMore(seen: set<Ref>, seen': set<Ref>, refs: seq<Ref>, first: Rows)
    requires seen <= seen' && Causal(seen, refs, first)
    ensures Causal(seen', refs, first)
  {
    if refs != [] {
      CausalMore(seen, seen', refs[..|refs| - 1], first);
    }
  }

  lemma {:induction false} CausalConcat(seen: set<Ref>, a: seq<Ref>, b: seq<Ref>, first: Rows)
    requires Causal(seen, a, first) && Causal(seen + Elems(a), b, first)
    ensures Causal(seen, a + b, first)
  {
    if b == [] {
      assert a + b == a;
    } else {
      var n := |b| - 1;
      CausalConcat(seen, a, b[..n], first);
      assert (a + b)[..|a| + n] == a + b[..n];
      var before, r := b[..n], b[n];
      forall x | x in (seen + Elems(a)) + Elems(before) ensures x in seen + Elems(a + before) {
      }
    }
  }

  // The part of row y that a row of h samples from x0 reads from below.
  ghost predicate HasRow(seen: set<Ref>, c: nat, y: nat, x0: nat, h: nat) {
    forall r: Ref :: r.c == c && r.row == y && x0 <= r.col + 1 && r.col < x0 + h ==> r in seen
  }

  ghost predicate HasColumn(seen: set<Ref>, c: nat, y0: nat, x: nat, v: nat) {
    forall r: Ref :: r.c == c && r.col == x && y0 <= r.row < y0 + v ==> r in seen
  }

  lemma {:induction false} RowCausal(seen: set<Ref>, first: Rows, c: nat, y: nat, x0: nat, h: nat)
    requires c in first && first[c] <= y && (x0 > 0 ==> Ref(c, y, x0 - 1) in seen)
    requires y > first[c] ==> HasRow(seen, c, y - 1, x0, h)
    ensures Causal(seen, Row(c, y, x0, h), first)
  {
    if h > 0 {
      RowCausal(seen, first, c, y, x0, h - 1);
      var before, r := Row(c, y, x0, h - 1), Ref(c, y, x0 + h - 1);
      if h > 1 {
        RowCount(c, y, x0, h - 1, Left(r));
        Counted(before, Left(r));
      }
      CausalLast(seen, before, r, first);
    }
  }

  lemma {:induction false} CausalLast(seen: set<Ref>, before: seq<Ref>, r: Ref, first: Rows)
    requires Causal(seen, before, first) && r.c in first && first[r.c] <= r.row
    requires forall q :: q in Needs(r, first[r.c]) ==> q in seen || q in before
    ensures Causal(seen, before + [r], first)
  {
    var all := before + [r];
    assert all[..|all| - 1] == before;
  }

  lemma {:induction false} GridCausal(seen: set<Ref>, first: Rows, c: nat, y0: nat, x0: nat, v: nat, h: nat)
    requires c in first && first[c] <= y0
    requires x0 > 0 ==> HasColumn(seen, c, y0, x0 - 1, v)
    requires y0 > first[c] ==> HasRow(seen, c, y0 - 1, x0, h)
    ensures Causal(seen, Grid(c, y0, x0, v, h), first)
  {
    if v > 0 {
      GridCausal(seen, first, c, y0, x0, v - 1, h);
      var before, y := Grid(c, y0, x0, v - 1, h), y0 + v - 1;
      var seen' := seen + Elems(before);
      if v > 1 {
        forall q: Ref | q.c == c && q.row == y - 1 && x0 <= q.col + 1 && q.col < x0 + h ensures q in seen' {
          GridCount(c, y0, x0, v - 1, h, q);
          Counted(before, q);
        }
      }
      RowCausal(seen', first, c, y, x0, h);
      CausalConcat(seen, before, Row(c, y, x0, h), first);
    }
  }

  // What component k has written of the interval that began at MCU row my0, when MCU (my, mx) begins; of the
  // rows above, only the columns up to that MCU's right edge.
  ghost predicate Before(k: Comp, my0: nat, my: nat, mx: nat, r: Ref) {
    r.c == k.c
    && (InRowOf(k, my, mx, r) || (my0 * k.v <= r.row < my * k.v && r.col < mx * k.h + k.h))
  }

  ghost predicate Ready(seen: set<Ref>, comps: seq<Comp>, my0: nat, my: nat, mx: nat) {
    forall k, r :: k in comps && Before(k, my0, my, mx, r) ==> r in seen
  }

  // first_row[c] of an interval that begins at MCU row my0.
  ghost predicate StartsAt(first: Rows, comps: seq<Comp>, my0: nat) {
    forall k :: k in comps ==> k.c in first && first[k.c] == my0 * k.v
  }

  lemma {:induction false} CellCausal(seen: set<Ref>, first: Rows, k: Comp, my0: nat, my: nat, mx: nat)
    requires k.c in first && first[k.c] == my0 * k.v && my0 <= my
    requires forall r :: Before(k, my0, my, mx, r) ==> r in seen
    ensures Causal(seen, Grid(k.c, my * k.v, mx * k.h, k.v, k.h), first)
  {
    var y0, x0 := my * k.v, mx * k.h;
    MulMono(my0, my, k.v);
    if x0 > 0 {
      forall r: Ref | r.c == k.c && r.col == x0 - 1 && y0 <= r.row < y0 + k.v ensures r in seen {
        assert Before(k, my0, my, mx, r);
      }
    }
    if y0 > first[k.c] {
      forall r: Ref | r.c == k.c && r.row == y0 - 1 && x0 <= r.col + 1 && r.col < x0 + k.h ensures r in seen {
        assert Before(k, my0, my, mx, r);
      }
    }
    GridCausal(seen, first, k.c, y0, x0, k.v, k.h);
  }

  lemma {:induction false} McuCausal(seen: set<Ref>, first: Rows, comps: seq<Comp>, my0: nat, my: nat, mx: nat)
    requires StartsAt(first, comps, my0) && my0 <= my && Ready(seen, comps, my0, my, mx)
    ensures Causal(seen, Mcu(comps, my, mx), first)
  {
    if comps != [] {
      var n := |comps| - 1;
      var before, k := comps[..n], comps[n];
      assert k in comps && forall k' :: k' in before ==> k' in comps;
      McuCausal(seen, first, before, my0, my, mx);
      var cell := Grid(k.c, my * k.v, mx * k.h, k.v, k.h);
      CellCausal(seen, first, k, my0, my, mx);
      CausalMore(seen, seen + Elems(Mcu(before, my, mx)), cell, first);
      CausalConcat(seen, Mcu(before, my, mx), cell, first);
    }
  }

  // Everything component k writes in MCU rows my0, ..., my - 1, and in the first mx MCUs of row my.
  ghost predicate Done(k: Comp, my0: nat, my: nat, mcux: nat, mx: nat, r: Ref) {
    r.c == k.c && ((my0 * k.v <= r.row < my * k.v && r.col < mcux * k.h) || InRowOf(k, my, mx, r))
  }

  lemma {:induction false} RowOfMcusCausal(seen: set<Ref>, first: Rows, comps: seq<Comp>, my0: nat, my: nat, mcux: nat, mx: nat)
    requires Distinct(comps) && StartsAt(first, comps, my0) && my0 <= my && mx <= mcux
    requires forall k, r :: k in comps && Done(k, my0, my, mcux, 0, r) ==> r in seen
    ensures Causal(seen, Concat(UnitRow(comps, my, mx)), first)
  {
    if mx > 0 {
      RowOfMcusCausal(seen, first, comps, my0, my, mcux, mx - 1);
      var before := Concat(UnitRow(comps, my, mx - 1));
      var seen' := seen + Elems(before);
      forall k, r | k in comps && Before(k, my0, my, mx - 1, r) ensures r in seen' {
        EdgeOfRow(comps, k, my0, my, mcux, mx - 1, r);
        UnitRowCount(comps, my, mx - 1, r);
        Counted(before, r);
      }
      McuCausal(seen', first, comps, my0, my, mx - 1);
      ConcatLast(UnitRow(comps, my, mx - 1), Mcu(comps, my, mx - 1));
      CausalConcat(seen, before, Mcu(comps, my, mx - 1), first);
    }
  }

  lemma {:induction false} EdgeOfRow(comps: seq<Comp>, k: Comp, my0: nat, my: nat, mcux: nat, mx: nat, r: Ref)
    requires k in comps && mx < mcux && Before(k, my0, my, mx, r)
    ensures Done(k, my0, my, mcux, 0, r) || InRow(comps, my, mx, r)
  {
    MulMono(mx + 1, mcux, k.h);
    assert (mx + 1) * k.h == mx * k.h + k.h;
    var i :| 0 <= i < |comps| && comps[i] == k;
  }

  // The MCU rows of one interval, read as a list of samples.
  function IntervalRefs(comps: seq<Comp>, my0: nat, my: nat, mcux: nat): seq<Ref>
    requires my0 <= my
    decreases my
  {
    if my == my0 then [] else IntervalRefs(comps, my0, my - 1, mcux) + Concat(UnitRow(comps, my - 1, mcux))
  }

  lemma {:induction false} IntervalHolds(comps: seq<Comp>, my0: nat, my: nat, mcux: nat, k: Comp, r: Ref)
    requires Distinct(comps) && my0 <= my && k in comps && Done(k, my0, my, mcux, 0, r)
    ensures r in IntervalRefs(comps, my0, my, mcux)
    decreases my
  {
    assert 0 * k.h == 0;
    if my > my0 {
      assert my * k.v == (my - 1) * k.v + k.v;
      if r.row < (my - 1) * k.v {
        IntervalHolds(comps, my0, my - 1, mcux, k, r);
      } else {
        RowHolds(comps, my - 1, mcux, k, r);
      }
    }
  }

  lemma {:induction false} RowHolds(comps: seq<Comp>, my: nat, mcux: nat, k: Comp, r: Ref)
    requires Distinct(comps) && k in comps && InRowOf(k, my, mcux, r)
    ensures r in Concat(UnitRow(comps, my, mcux))
  {
    var i :| 0 <= i < |comps| && comps[i] == k;
    UnitRowCount(comps, my, mcux, r);
    Counted(Concat(UnitRow(comps, my, mcux)), r);
  }

  // The whole interval is causal from nothing: restarts cut every dependency on what came before.
  lemma {:induction false} IntervalCausal(first: Rows, comps: seq<Comp>, my0: nat, my: nat, mcux: nat)
    requires Distinct(comps) && StartsAt(first, comps, my0) && my0 <= my
    ensures Causal({}, IntervalRefs(comps, my0, my, mcux), first)
    decreases my
  {
    if my > my0 {
      IntervalCausal(first, comps, my0, my - 1, mcux);
      var before := IntervalRefs(comps, my0, my - 1, mcux);
      var seen := {} + Elems(before);
      forall k, r | k in comps && Done(k, my0, my - 1, mcux, 0, r) ensures r in seen {
        IntervalHolds(comps, my0, my - 1, mcux, k, r);
      }
      RowOfMcusCausal(seen, first, comps, my0, my - 1, mcux, mcux);
      CausalConcat({}, before, Concat(UnitRow(comps, my - 1, mcux)), first);
    }
  }
}
