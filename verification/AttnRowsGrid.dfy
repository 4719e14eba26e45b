// The simdgroup-per-rows prefill kernel (kernels/flash_attn_rows.metal): which keys a simdgroup visits for its 32 / R query
// rows, and every simdgroup of the grid in any order.
module AttnRowsGrid {
  import opened Common
  import opened OnlineSoftmax
  import opened Layout
  import opened Lanes
  import opened Butterfly
  import opened AttnMask
  import opened AttnRows
  import opened F = AttnFa2

  const SG_W: nat := 32

  // ---------- the union key range ----------

  // First key visited for rows from base_row on.
  function KeyStart(a: Launch, tkv: nat, base_row: nat): nat {
    var u_lo := KLo(a, a.qOff + base_row);
    if u_lo > a.kvOff then Min(tkv, u_lo - a.kvOff) else 0
  }

  // One past the last, for `rows` of them.
  function KeyEnd(a: Launch, tkv: nat, base_row: nat, rows: nat): nat
    requires rows > 0
  {
    var q_hi := a.qOff + base_row + rows - 1;
    Min(tkv, if q_hi >= a.kvOff then q_hi - a.kvOff + 1 else 0)
  }

  // Main: every key that some row of the simdgroup keeps is visited.
  lemma {:induction false} RangeCoversKept(a: Launch, tkv: nat, base_row: nat, rows: nat, t: nat, j: nat)
    requires rows > 0 && base_row <= t < base_row + rows && j < tkv && Keep(a, t, j)
    ensures KeyStart(a, tkv, base_row) <= j < KeyEnd(a, tkv, base_row, rows)
  {
    KernelMaskIsKeep(a, t, j);
  }

  // With one row to a simdgroup masked keys are never visited: the range is the row's kept keys.
  lemma {:induction false} LoneRangeIsKept(a: Launch, tkv: nat, t: nat, j: nat)
    ensures KeyStart(a, tkv, t) <= j < KeyEnd(a, tkv, t, 1) <==> j < tkv && Keep(a, t, j)
  {
    KernelMaskIsKeep(a, t, j);
  }

  // The keys a row keeps.
  ghost function Kept(a: Launch, tkv: nat, t: nat): set<nat> {
    set j: nat | j < tkv && Keep(a, t, j)
  }

  // The keys visited, one after another.
  function Range(lo: nat, hi: nat): (visit: seq<nat>)
    ensures Within(visit, hi) && Distinct(visit) && |visit| == if lo < hi then hi - lo else 0
    ensures forall i :: 0 <= i < |visit| ==> visit[i] == lo + i
  {
    seq(if lo < hi then hi - lo else 0, i requires i >= 0 => lo + i)
  }

  lemma {:induction false} RangeHas(lo: nat, hi: nat, j: nat)
    requires lo <= j < hi
    ensures j in Range(lo, hi)
  {
    assert Range(lo, hi)[j - lo] == j;
  }

  ghost function Span(lo: nat, hi: nat): (s: set<nat>)
    ensures |s| == if lo < hi then hi - lo else 0
    ensures forall j: nat :: j in s <==> lo <= j < hi
    decreases hi
  {
    if lo < hi then Span(lo, hi - 1) + {hi - 1} else {}
  }

  // Sharing the loop costs a row fewer than `rows` keys beyond the ones it keeps.
  lemma {:induction false} FewExtraKeys(a: Launch, tkv: nat, base_row: nat, rows: nat, t: nat)
    requires rows > 0 && base_row <= t < base_row + rows
    ensures |Range(KeyStart(a, tkv, base_row), KeyEnd(a, tkv, base_row, rows))| <= |Kept(a, tkv, t)| + rows - 1
  {
    var own := Span(KeyStart(a, tkv, t), KeyEnd(a, tkv, t, 1));
    forall j: nat ensures j in own <==> j in Kept(a, tkv, t) {
      LoneRangeIsKept(a, tkv, t, j);
    }
    assert own == Kept(a, tkv, t);
  }

  // ---------- one row ----------

  // The mask the kernel evaluates per key.
  function LiveKeys(a: Launch, tkv: nat, t_q: nat): (live: seq<bool>)
    ensures |live| == tkv && forall j: nat :: j < tkv ==> live[j] == Keep(a, t_q, j)
  {
    var live := seq(tkv, j requires j >= 0 => KernelLive(a, t_q, j));
    assert forall j: nat :: j < tkv ==> live[j] == Keep(a, t_q, j);
    live
  }

  lemma {:induction false} LiveAreVisited(a: Launch, tkv: nat, base_row: nat, rows: nat, t: nat)
    requires rows > 0 && base_row <= t < base_row + rows
    ensures var live := LiveKeys(a, tkv, t);
            forall j :: 0 <= j < tkv && live[j] ==> j in Range(KeyStart(a, tkv, base_row), KeyEnd(a, tkv, base_row, rows))
  {
    var live := LiveKeys(a, tkv, t);
    forall j | 0 <= j < tkv && live[j] ensures j in Range(KeyStart(a, tkv, base_row), KeyEnd(a, tkv, base_row, rows)) {
      RangeCoversKept(a, tkv, base_row, rows, t, j);
      RangeHas(KeyStart(a, tkv, base_row), KeyEnd(a, tkv, base_row, rows), j);
    }
  }

  // What row (b, h, t) must become.
  ghost function Wanted(p: Problem, exp: real -> real, store: real -> real, b: nat, h: nat, t: nat): (want: seq<real>)
    requires p.Valid() && b < p.a.batch && h < p.a.heads && t < p.a.tq
    ensures |want| == p.a.headDim
  {
    PlainRow(exp, store, p.QVec(b, h, t), p.KvVecs(p.k, b, h), p.KvVecs(p.v, b, h), LiveKeys(p.a, p.tkv, t), p.a.scale)
  }

  lemma {:induction false} WantedIsPlain(p: Problem, exp: real -> real, store: real -> real, b: nat, h: nat, t: nat, d: nat)
    requires p.Valid() && b < p.a.batch && h < p.a.heads && t < p.a.tq && d < p.a.headDim
    ensures Wanted(p, exp, store, b, h, t)[d] == store(p.Plain(exp, b, h, t, d))
  {
    var q, ks := p.QVec(b, h, t), p.KvVecs(p.k, b, h);
    var masked, row := MaskedRow(q, ks, LiveKeys(p.a, p.tkv, t), p.a.scale), RowKeys(p.a, q, ks, t);
    forall j | 0 <= j < |ks| ensures masked[j] == row[j] {
    }
    assert masked == row;
  }

  // One query row on its R lanes, over the keys of a range.
  method WalkRow(exp: real -> real, negMax: real, store: real -> real, q: seq<real>, ks: seq<seq<real>>, vs: seq<seq<real>>,
                 live: seq<bool>, scale: real, lo: nat, hi: nat, r: nat, dpv: nat, o: array<real>, oOff: nat, ghost want: seq<real>)
    requires IsExp(exp) && PowerOfTwo(r) && |q| == 4 * (r * dpv) && AllDim(ks, |q|) && AllDim(vs, |q|)
    requires |ks| == |vs| == |live| && hi <= |ks| && oOff + |q| <= o.Length
    requires forall j :: 0 <= j < |live| && live[j] ==> j in Range(lo, hi)
    requires want == PlainRow(exp, store, q, ks, vs, live, scale)
    modifies o
    ensures forall d: nat | d < |want| :: o[oOff + d] == want[d]
    ensures forall i | 0 <= i < o.Length && !(oOff <= i < oOff + |want|) :: o[i] == old(o[i])
  {
    var _, _ := AttnRow(exp, negMax, store, q, ks, vs, live, scale, Range(lo, hi), r, dpv, o, oOff);
  }

  // The range is the simdgroup's.
  method PutRow(p: Problem, exp: real -> real, negMax: real, store: real -> real, o: array<real>, b: nat, h: nat, t_q: nat,
                base_row: nat, rows: nat, r: nat, dpv: nat, ghost want: seq<real>)
    requires p.Valid() && IsExp(exp) && PowerOfTwo(r) && p.a.headDim == 4 * (r * dpv)
    requires b < p.a.batch && h < p.a.heads && t_q < p.a.tq && rows > 0 && base_row <= t_q < base_row + rows
    requires p.a.QRow(b, h, t_q) + p.a.headDim <= o.Length && want == Wanted(p, exp, store, b, h, t_q)
    modifies o
    ensures forall d: nat | d < |want| :: o[p.a.QRow(b, h, t_q) + d] == want[d]
    ensures forall i | 0 <= i < o.Length && !(p.a.QRow(b, h, t_q) <= i < p.a.QRow(b, h, t_q) + |want|) :: o[i] == old(o[i])
  {
    var lo, hi := KeyStart(p.a, p.tkv, base_row), KeyEnd(p.a, p.tkv, base_row, rows);
    LiveAreVisited(p.a, p.tkv, base_row, rows, t_q);
    WalkRow(exp, negMax, store, p.QVec(b, h, t_q), p.KvVecs(p.k, b, h), p.KvVecs(p.v, b, h), LiveKeys(p.a, p.tkv, t_q),
            p.a.scale, lo, hi, r, dpv, o, p.a.QRow(b, h, t_q), want);
  }

  // An element is in row (b, h, t_q) by its address exactly when it is by its index.
  lemma {:induction false} RowElement(a: Launch, o: array<real>, b: nat, h: nat, t_q: nat, b': nat, h': nat, t: nat, d: nat)
    requires InRange(a, b', h', t, d) && b < a.batch && h < a.heads && t_q < a.tq && o.Length == OutSize(a)
    ensures a.QElem(b', h', t, d) < o.Length && Out(a, o, b', h', t, d) == o[a.QElem(b', h', t, d)]
    ensures (a.QRow(b, h, t_q) <= a.QElem(b', h', t, d) < a.QRow(b, h, t_q) + a.headDim) <==> (b' == b && h' == h && t == t_q)
  {
    RowAddrFits(b', t, h', a.batch, a.tq, a.heads, a.headDim);
    var c, base := a.QElem(b', h', t, d), a.QRow(b, h, t_q);
    if base <= c < base + a.headDim {
      RowAddrInjective(b', t, h', d, b, t_q, h, c - base, a.tq, a.heads, a.headDim);
    }
  }

  // The row by its index: every other output element keeps its value.
  method RunRow(p: Problem, exp: real -> real, negMax: real, store: real -> real, o: array<real>, b: nat, h: nat, t_q: nat,
                base_row: nat, rows: nat, r: nat, dpv: nat)
    requires p.Valid() && IsExp(exp) && PowerOfTwo(r) && p.a.headDim == 4 * (r * dpv) && o.Length == OutSize(p.a)
    requires b < p.a.batch && h < p.a.heads && t_q < p.a.tq && rows > 0 && base_row <= t_q < base_row + rows
    modifies o
    ensures forall b': nat, h': nat, t: nat, d: nat | InRange(p.a, b', h', t, d) ::
      Out(p.a, o, b', h', t, d) ==
        if b' == b && h' == h && t == t_q then store(p.Plain(exp, b, h, t_q, d)) else old(Out(p.a, o, b', h', t, d))
  {
    RowAddrFits(b, t_q, h, p.a.batch, p.a.tq, p.a.heads, p.a.headDim);
    ghost var want := Wanted(p, exp, store, b, h, t_q);
    PutRow(p, exp, negMax, store, o, b, h, t_q, base_row, rows, r, dpv, want);
    forall b': nat, h': nat, t: nat, d: nat | InRange(p.a, b', h', t, d)
      ensures Out(p.a, o, b', h', t, d) ==
        if b' == b && h' == h && t == t_q then store(p.Plain(exp, b, h, t_q, d)) else old(Out(p.a, o, b', h', t, d))
    {
      RowElement(p.a, o, b, h, t_q, b', h', t, d);
      WantedIsPlain(p, exp, store, b, h, t_q, d);
    }
  }

  // ---------- the grid ----------

  // First row of simdgroup sg of threadgroup x: sgt simdgroups to a threadgroup, rps rows to a simdgroup.
  function BaseRow(x: nat, sg: nat, sgt: nat, rps: nat): nat { x * (sgt * rps) + sg * rps }

  // A simdgroup of the grid.
  datatype Simdgroup = Simdgroup(x: nat, bh: nat, sg: nat)

  ghost predicate Has(a: Launch, s: Simdgroup, sgt: nat, rps: nat, b: nat, h: nat, t: nat)
    requires a.heads > 0
  {
    var base := BaseRow(s.x, s.sg, sgt, rps);
    b == s.bh / a.heads && h == s.bh % a.heads && base <= t < base + rps
  }

  // The rows of a simdgroup, each over all their keys.
  method RunRows(p: Problem, exp: real -> real, negMax: real, store: real -> real, o: array<real>, b: nat, h: nat,
                 base_row: nat, live_rows: nat, r: nat, dpv: nat)
    requires p.Valid() && IsExp(exp) && PowerOfTwo(r) && p.a.headDim == 4 * (r * dpv) && o.Length == OutSize(p.a)
    requires b < p.a.batch && h < p.a.heads && base_row + live_rows <= p.a.tq
    modifies o
    ensures forall b': nat, h': nat, t: nat, d: nat | InRange(p.a, b', h', t, d) ::
      Out(p.a, o, b', h', t, d) ==
        if b' == b && h' == h && base_row <= t < base_row + live_rows then store(p.Plain(exp, b, h, t, d))
        else old(Out(p.a, o, b', h', t, d))
  {
    for sub := 0 to live_rows
      invariant forall b': nat, h': nat, t: nat, d: nat | InRange(p.a, b', h', t, d) ::
        Out(p.a, o, b', h', t, d) ==
          if b' == b && h' == h && base_row <= t < base_row + sub then store(p.Plain(exp, b, h, t, d))
          else old(Out(p.a, o, b', h', t, d))
    {
      RunRow(p, exp, negMax, store, o, b, h, base_row + sub, base_row, live_rows, r, dpv);
    }
  }

  // One simdgroup: its rows become the plain masked attention, every other output element keeps its value.
  method RowsKernel(a: Launch, q: seq<real>, k: seq<real>, v: seq<real>, o: array<real>, tkvPtr: nat, exp: real -> real,
                    negMax: real, store: real -> real, s: Simdgroup, sgt: nat, r: nat, dpv: nat)
    requires Clamped(a, q, k, v, tkvPtr).Valid() && IsExp(exp) && PowerOfTwo(r) && r <= SG_W && a.headDim == 4 * (r * dpv)
    requires o.Length == OutSize(a) && s.bh < a.batch * a.heads && s.sg < sgt
    modifies o
    ensures forall b: nat, h: nat, t: nat, d: nat | InRange(a, b, h, t, d) ::
      Out(a, o, b, h, t, d) ==
        if Has(a, s, sgt, SG_W / r, b, h, t) then store(Clamped(a, q, k, v, tkvPtr).Plain(exp, b, h, t, d))
        else old(Out(a, o, b, h, t, d))
  {
    var p := Clamped(a, q, k, v, tkvPtr);
    var rps := SG_W / r;
    SplitBatchHead(s.bh, a.heads, a.batch);
    var b, h, base_row := s.bh / a.heads, s.bh % a.heads, BaseRow(s.x, s.sg, sgt, rps);
    if base_row >= a.tq {
      return;
    }
    RunRows(p, exp, negMax, store, o, b, h, base_row, Min(rps, a.tq - base_row), r, dpv);
  }

  ghost predicate Ran(a: Launch, order: seq<Simdgroup>, sgt: nat, rps: nat, b: nat, h: nat, t: nat)
    requires a.heads > 0
  {
    exists s :: s in order && Has(a, s, sgt, rps, b, h, t)
  }

  // The simdgroup that has row (b, h, t).
  lemma {:induction false} RowHome(a: Launch, sgt: nat, rps: nat, b: nat, h: nat, t: nat) returns (s: Simdgroup)
    requires a.heads > 0 && sgt > 0 && rps > 0 && b < a.batch && h < a.heads && t < a.tq
    ensures s.bh < a.batch * a.heads && s.sg < sgt && s.x * (sgt * rps) < a.tq && Has(a, s, sgt, rps, b, h, t)
  {
    CellFits(a.batch, a.heads, b, h);
    ModUnique(b * a.heads + h, b, h, a.heads);
    MulMono(1, sgt, rps);
    var rpt := sgt * rps;
    var x, rest := t / rpt, t % rpt;
    assert t == x * rpt + rest;
    var sg := rest / rps;
    assert rest == sg * rps + rest % rps;
    if sg >= sgt {
      MulMono(sgt, sg, rps);
    }
    s := Simdgroup(x, b * a.heads + h, sg);
  }

  lemma {:induction false} RanOrHas(a: Launch, order: seq<Simdgroup>, i: nat, sgt: nat, rps: nat, b: nat, h: nat, t: nat)
    requires a.heads > 0 && i < |order| && Ran(a, order[..i + 1], sgt, rps, b, h, t)
    ensures Ran(a, order[..i], sgt, rps, b, h, t) || Has(a, order[i], sgt, rps, b, h, t)
  {
    assert order[..i + 1] == order[..i] + [order[i]];
  }

  // Main: the whole dispatch, its simdgroups in any order, repeats included. Every output element becomes the plain masked
  // attention.
  method Dispatch(a: Launch, q: seq<real>, k: seq<real>, v: seq<real>, o: array<real>, tkvPtr: nat, exp: real -> real,
                  negMax: real, store: real -> real, order: seq<Simdgroup>, sgt: nat, r: nat, dpv: nat)
    requires Clamped(a, q, k, v, tkvPtr).Valid() && IsExp(exp) && PowerOfTwo(r) && r <= SG_W && a.headDim == 4 * (r * dpv)
    requires o.Length == OutSize(a) && sgt > 0
    requires forall s :: s in order ==> s.bh < a.batch * a.heads && s.sg < sgt
    requires forall x: nat, bh: nat, sg: nat :: x * (sgt * (SG_W / r)) < a.tq && bh < a.batch * a.heads && sg < sgt ==>
               Simdgroup(x, bh, sg) in order
    modifies o
    ensures forall b: nat, h: nat, t: nat, d: nat | InRange(a, b, h, t, d) ::
      Out(a, o, b, h, t, d) == store(Clamped(a, q, k, v, tkvPtr).Plain(exp, b, h, t, d))
  {
    ghost var p, rps := Clamped(a, q, k, v, tkvPtr), SG_W / r;
    for i := 0 to |order|
      invariant forall b: nat, h: nat, t: nat, d: nat | InRange(a, b, h, t, d) && Ran(a, order[..i], sgt, rps, b, h, t) ::
        Out(a, o, b, h, t, d) == store(p.Plain(exp, b, h, t, d))
    {
      RowsKernel(a, q, k, v, o, tkvPtr, exp, negMax, store, order[i], sgt, r, dpv);
      forall b: nat, h: nat, t: nat, d: nat | InRange(a, b, h, t, d) && Ran(a, order[..i + 1], sgt, rps, b, h, t)
        ensures Out(a, o, b, h, t, d) == store(p.Plain(exp, b, h, t, d))
      {
        RanOrHas(a, order, i, sgt, rps, b, h, t);
      }
    }
    assert order[..|order|] == order;
    forall b: nat, h: nat, t: nat, d: nat | InRange(a, b, h, t, d)
      ensures Ran(a, order, sgt, rps, b, h, t)
    {
      var s := RowHome(a, sgt, rps, b, h, t);
      assert s == Simdgroup(s.x, s.bh, s.sg) && s in order;
    }
  }
}
