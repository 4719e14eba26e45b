// The matrix-unit attention over its whole grid (kernels/attn_tiled.h): output and log-sum-exp addresses, the output
// conversion, and every threadgroup in any order.
module AttnTiledGrid {
  import opened OnlineSoftmax
  import opened Layout
  import opened Lanes
  import opened Butterfly
  import opened AttnMask
  import opened T = AttnTiled
  import opened F = AttnFa2

  // One dispatch: its shape and inputs, the mode, and the live length of every batch row.
  datatype Grid = Grid(a: Launch, mode: Mode, q: seq<real>, k: seq<real>, v: seq<real>, tkv: seq<nat>)
  {
    ghost predicate Valid() {
      |tkv| == a.batch && forall b: nat :: b < a.batch ==> Of(b).Valid()
    }

    function Of(b: nat): Problem
      requires b < |tkv|
    {
      Problem(a, q, k, v, tkv[b])
    }

    // What query row (b, h, t) sees, and value column d of its head.
    ghost function Seen(b: nat, h: nat, t: nat): (row: seq<Key>)
      requires Valid() && b < a.batch && h < a.heads && t < a.tq
      ensures |row| == tkv[b]
    {
      var p := Of(b);
      seq(tkv[b], j requires 0 <= j < tkv[b] =>
        Key(Dot(p.QVec(b, h, t), p.KvVecs(k, b, h)[j], a.headDim) * a.scale, Live(mode, tkv[b], t, j)))
    }

    ghost function Cols(b: nat, h: nat): (cols: seq<seq<real>>)
      requires Valid() && b < a.batch && h < a.heads
      ensures |cols| == a.headDim && forall d: nat :: d < a.headDim ==> cols[d] == Column(Of(b).KvVecs(v, b, h), a.headDim, d)
    {
      seq(a.headDim, d requires 0 <= d < a.headDim => Column(Of(b).KvVecs(v, b, h), a.headDim, d))
    }
  }

  // What the kernel is instantiated with.
  datatype Numbers = Numbers(exp: real -> real, ln: real -> real, rnd: real -> real, negMax: real, fltMax: real,
                             store: real -> real)
  {
    ghost predicate Valid(exact: bool) {
      IsExp(exp) && IsLog(exp, ln) && IsRounding(rnd) && (exact ==> Identity(rnd))
    }
  }

  // The seed of the running maximum is below every live score of the dispatch.
  ghost predicate SeedOk(g: Grid, x: Numbers)
    requires g.Valid()
  {
    forall b: nat, h: nat, t: nat :: b < g.a.batch && h < g.a.heads && t < g.a.tq ==> SeedBelow(g.Seen(b, h, t), x.negMax)
  }

  function LseSize(a: Launch): nat { a.batch * a.heads * a.tq }

  function LseAt(a: Launch, b: nat, h: nat, t: nat): nat { Cell(Cell(b, a.heads, h), a.tq, t) }

  lemma {:induction false} LseFits(a: Launch, b: nat, h: nat, t: nat)
    requires b < a.batch && h < a.heads && t < a.tq
    ensures LseAt(a, b, h, t) < LseSize(a)
  {
    CellFits(a.batch, a.heads, b, h);
    CellFits(a.batch * a.heads, a.tq, Cell(b, a.heads, h), t);
  }

  lemma {:induction false} LseInjective(a: Launch, b: nat, h: nat, t: nat, b': nat, h': nat, t': nat)
    requires h < a.heads && t < a.tq && h' < a.heads && t' < a.tq
    requires LseAt(a, b, h, t) == LseAt(a, b', h', t')
    ensures b == b' && h == h' && t == t'
  {
    CellInjective(a.tq, Cell(b, a.heads, h), t, Cell(b', a.heads, h'), t');
    CellInjective(a.heads, b, h, b', h');
  }

  // Row (b, h, t) of the output.
  ghost function RowOf(a: Launch, os: seq<real>, b: nat, h: nat, t: nat): (row: seq<real>)
    requires |os| == OutSize(a) && b < a.batch && h < a.heads && t < a.tq
    ensures |row| == a.headDim
  {
    RowAddrFits(b, t, h, a.batch, a.tq, a.heads, a.headDim);
    os[a.QRow(b, h, t)..a.QRow(b, h, t) + a.headDim]
  }

  ghost function LseOf(a: Launch, ls: seq<real>, b: nat, h: nat, t: nat): real
    requires |ls| == LseSize(a) && b < a.batch && h < a.heads && t < a.tq
  {
    LseFits(a, b, h, t);
    ls[LseAt(a, b, h, t)]
  }

  lemma {:induction false} SliceAt(s: seq<real>, base: nat, n: nat, d: nat)
    requires d < n && base + n <= |s|
    ensures s[base..base + n][d] == s[base + d]
  {
  }

  lemma {:induction false} RowOfOut(a: Launch, o: array<real>, b: nat, h: nat, t: nat, d: nat)
    requires o.Length == OutSize(a) && InRange(a, b, h, t, d)
    ensures RowOf(a, o[..], b, h, t)[d] == Out(a, o, b, h, t, d)
  {
    RowAddrFits(b, t, h, a.batch, a.tq, a.heads, a.headDim);
    SliceAt(o[..], a.QRow(b, h, t), a.headDim, d);
  }

  // This is what row (b, h, t) must become: a convex combination of its live values under any rounding, the softmax
  // without, zeros when it keeps nothing; and its log-sum-exp.
  ghost predicate RowHeld(g: Grid, x: Numbers, exact: bool, row: seq<real>, l: real, b: nat, h: nat, t: nat)
    requires g.Valid() && b < g.a.batch && h < g.a.heads && t < g.a.tq && |row| == g.a.headDim
  {
    exists out, coef ::
      RowResult(x.exp, x.ln, exact, x.fltMax, g.Seen(b, h, t), g.Cols(b, h), out, l, coef)
      && forall d: nat :: d < g.a.headDim ==> row[d] == x.store(out[d])
  }

  // Threadgroup (i, bh) has the row.
  predicate Has(a: Launch, i: nat, bh: nat, bq: nat, b: nat, h: nat, t: nat)
    requires a.heads > 0
  {
    b == bh / a.heads && h == bh % a.heads && i * bq <= t < i * bq + bq
  }

  // The tile's own view of a row is the row's.
  lemma {:induction false} TileSees(g: Grid, b: nat, h: nat, q0: nat, n: nat, head: Head, r: nat)
    requires g.Valid() && b < g.a.batch && h < g.a.heads && q0 + n <= g.a.tq && 0 < n && r < n
    requires head == HeadOf(g, b, h, q0, n)
    ensures head.Row(r) == g.Seen(b, h, q0 + r)
  {
    var p := g.Of(b);
    assert head.q[r] == p.QVec(b, h, q0 + r);
    forall j | 0 <= j < g.tkv[b] ensures head.Row(r)[j] == g.Seen(b, h, q0 + r)[j] {
      assert head.k[j] == p.KvVecs(g.k, b, h)[j];
    }
  }

  function HeadOf(g: Grid, b: nat, h: nat, q0: nat, n: nat): (head: Head)
    requires g.Valid() && b < g.a.batch && h < g.a.heads && q0 + n <= g.a.tq && 0 < n
    ensures head.Valid() && |head.q| == n && head.dim == g.a.headDim && head.v == g.Of(b).KvVecs(g.v, b, h)
  {
    var p := g.Of(b);
    Head(g.mode, g.a.scale, q0, g.a.headDim, p.QVecs(b, h, q0, n), p.KvVecs(g.k, b, h), p.KvVecs(g.v, b, h))
  }

  // Rows past the query are all masked, so no score is below the seed.
  lemma {:induction false} SeedsOk(g: Grid, x: Numbers, b: nat, h: nat, q0: nat, n: nat, head: Head, r: nat)
    requires g.Valid() && SeedOk(g, x) && b < g.a.batch && h < g.a.heads && q0 + n <= g.a.tq && 0 < n
    requires head == HeadOf(g, b, h, q0, n)
    ensures SeedBelow(head.Row(r), x.negMax)
  {
    if r < n { TileSees(g, b, h, q0, n, head, r); }
  }

  // The log-sum-exp of the tile's rows; every other entry keeps its value.
  method StoreLse(a: Launch, lse: array<real>, b: nat, h: nat, q0: nat, vals: seq<real>)
    requires lse.Length == LseSize(a) && b < a.batch && h < a.heads && q0 + |vals| <= a.tq
    modifies lse
    ensures forall b': nat, h': nat, t: nat | b' < a.batch && h' < a.heads && t < a.tq ::
      LseOf(a, lse[..], b', h', t) ==
        if b' == b && h' == h && q0 <= t < q0 + |vals| then vals[t - q0] else LseOf(a, old(lse[..]), b', h', t)
  {
    for r := 0 to |vals|
      invariant forall b': nat, h': nat, t: nat | b' < a.batch && h' < a.heads && t < a.tq ::
        LseOf(a, lse[..], b', h', t) ==
          if b' == b && h' == h && q0 <= t < q0 + r then vals[t - q0] else LseOf(a, old(lse[..]), b', h', t)
    {
      ghost var was := lse[..];
      LseFits(a, b, h, q0 + r);
      lse[LseAt(a, b, h, q0 + r)] := vals[r];
      forall b': nat, h': nat, t: nat | b' < a.batch && h' < a.heads && t < a.tq
        ensures LseOf(a, lse[..], b', h', t) ==
          if b' == b && h' == h && q0 <= t < q0 + r + 1 then vals[t - q0] else LseOf(a, old(lse[..]), b', h', t)
      {
        LseFits(a, b', h', t);
        assert LseOf(a, was, b', h', t) ==
          if b' == b && h' == h && q0 <= t < q0 + r then vals[t - q0] else LseOf(a, old(lse[..]), b', h', t);
        if LseAt(a, b', h', t) == LseAt(a, b, h, q0 + r) {
          LseInjective(a, b', h', t, b, h, q0 + r);
        }
      }
    }
  }

  // The output conversion of the finished rows.
  method Convert(store: real -> real, outs: seq<seq<real>>, dim: nat) returns (vals: seq<seq<real>>)
    requires AllDim(outs, dim)
    ensures |vals| == |outs| && AllDim(vals, dim)
    ensures forall r: nat, d: nat | r < |outs| && d < dim :: vals[r][d] == store(outs[r][d])
  {
    vals := [];
    for r := 0 to |outs|
      invariant |vals| == r && AllDim(vals, dim)
      invariant forall i: nat, d: nat | i < r && d < dim :: vals[i][d] == store(outs[i][d])
    {
      vals := vals + [seq(dim, d requires 0 <= d < dim => store(outs[r][d]))];
    }
  }

  // What a specification of rows may be built on: RowHeld is enough for it.
  ghost predicate Means(g: Grid, x: Numbers, exact: bool, held: (nat, nat, nat, seq<real>, real) -> bool)
    requires g.Valid()
  {
    forall b: nat, h: nat, t: nat, row: seq<real>, l: real {:trigger RowHeld(g, x, exact, row, l, b, h, t)}
      | b < g.a.batch && h < g.a.heads && t < g.a.tq && |row| == g.a.headDim ::
        RowHeld(g, x, exact, row, l, b, h, t) ==> held(b, h, t, row, l)
  }

  // The buffers hold row (b, h, t), in the sense of `held`.
  ghost predicate Held(a: Launch, held: (nat, nat, nat, seq<real>, real) -> bool, os: seq<real>, ls: seq<real>, b: nat, h: nat, t: nat)
    requires |os| == OutSize(a) && |ls| == LseSize(a) && b < a.batch && h < a.heads && t < a.tq
  {
    held(b, h, t, RowOf(a, os, b, h, t), LseOf(a, ls, b, h, t))
  }

  ghost predicate Kept(a: Launch, os: seq<real>, ls: seq<real>, os': seq<real>, ls': seq<real>, b: nat, h: nat, t: nat)
    requires |os| == |os'| == OutSize(a) && |ls| == |ls'| == LseSize(a) && b < a.batch && h < a.heads && t < a.tq
  {
    RowOf(a, os, b, h, t) == RowOf(a, os', b, h, t) && LseOf(a, ls, b, h, t) == LseOf(a, ls', b, h, t)
  }

  // A row is its elements.
  lemma {:induction false} RowStored(a: Launch, o: array<real>, b: nat, h: nat, t: nat, want: seq<real>)
    requires o.Length == OutSize(a) && b < a.batch && h < a.heads && t < a.tq && |want| == a.headDim
    requires forall d: nat | d < a.headDim :: Out(a, o, b, h, t, d) == want[d]
    ensures RowOf(a, o[..], b, h, t) == want
  {
    forall d: nat | d < a.headDim ensures RowOf(a, o[..], b, h, t)[d] == want[d] {
      RowOfOut(a, o, b, h, t, d);
    }
  }

  // StoreRows, row by row.
  method StoreOut(a: Launch, o: array<real>, b: nat, h: nat, q0: nat, vals: seq<seq<real>>)
    requires o.Length == OutSize(a) && b < a.batch && h < a.heads && q0 + |vals| <= a.tq && AllDim(vals, a.headDim)
    modifies o
    ensures forall b': nat, h': nat, t: nat | b' < a.batch && h' < a.heads && t < a.tq ::
      RowOf(a, o[..], b', h', t) ==
        if b' == b && h' == h && q0 <= t < q0 + |vals| then vals[t - q0] else RowOf(a, old(o[..]), b', h', t)
  {
    forall b': nat, h': nat, t: nat, d: nat | InRange(a, b', h', t, d)
      ensures RowOf(a, old(o[..]), b', h', t)[d] == Out(a, o, b', h', t, d)
    {
      RowOfOut(a, o, b', h', t, d);
    }
    StoreRows(a, o, b, h, q0, vals);
    forall b': nat, h': nat, t: nat | b' < a.batch && h' < a.heads && t < a.tq
      ensures RowOf(a, o[..], b', h', t) ==
        if b' == b && h' == h && q0 <= t < q0 + |vals| then vals[t - q0] else RowOf(a, old(o[..]), b', h', t)
    {
      var want := if b' == b && h' == h && q0 <= t < q0 + |vals| then vals[t - q0] else RowOf(a, old(o[..]), b', h', t);
      forall d: nat | d < a.headDim ensures Out(a, o, b', h', t, d) == want[d] {
        assert InRange(a, b', h', t, d);
      }
      RowStored(a, o, b', h', t, want);
    }
  }

  // The tile's rows, converted and stored.
  method StoreTile(g: Grid, x: Numbers, ghost exact: bool, o: array<real>, lse: array<real>, b: nat, h: nat, q0: nat,
                   outs: seq<seq<real>>, lses: seq<real>, ghost coefs: seq<seq<real>>)
    returns (ghost rows: seq<seq<real>>)
    requires g.Valid() && b < g.a.batch && h < g.a.heads && q0 + |outs| <= g.a.tq && |outs| == |lses| == |coefs|
    requires o != lse && o.Length == OutSize(g.a) && lse.Length == LseSize(g.a)
    requires forall r: nat :: r < |outs| ==>
      RowResult(x.exp, x.ln, exact, x.fltMax, g.Seen(b, h, q0 + r), g.Cols(b, h), outs[r], lses[r], coefs[r])
    modifies o, lse
    ensures |rows| == |outs| && AllDim(rows, g.a.headDim)
    ensures forall r: nat, d: nat | r < |outs| && d < g.a.headDim :: |outs[r]| == g.a.headDim && rows[r][d] == x.store(outs[r][d])
    ensures forall b': nat, h': nat, t: nat | b' < g.a.batch && h' < g.a.heads && t < g.a.tq ::
      RowOf(g.a, o[..], b', h', t) ==
        if b' == b && h' == h && q0 <= t < q0 + |outs| then rows[t - q0] else RowOf(g.a, old(o[..]), b', h', t)
    ensures forall b': nat, h': nat, t: nat | b' < g.a.batch && h' < g.a.heads && t < g.a.tq ::
      LseOf(g.a, lse[..], b', h', t) ==
        if b' == b && h' == h && q0 <= t < q0 + |outs| then lses[t - q0] else LseOf(g.a, old(lse[..]), b', h', t)
  {
    forall r: nat | r < |outs| ensures |outs[r]| == g.a.headDim {
      assert RowResult(x.exp, x.ln, exact, x.fltMax, g.Seen(b, h, q0 + r), g.Cols(b, h), outs[r], lses[r], coefs[r]);
    }
    var vals := Convert(x.store, outs, g.a.headDim);
    StoreOut(g.a, o, b, h, q0, vals);
    StoreLse(g.a, lse, b, h, q0, lses);
    rows := vals;
  }

  method RunTile(g: Grid, x: Numbers, ghost exact: bool, b: nat, h: nat, q0: nat, nq: nat, bq: nat, tpr: nat, cpt: nat,
                 inPlace: bool)
    returns (outs: seq<seq<real>>, lses: seq<real>, ghost coefs: seq<seq<real>>)
    requires g.Valid() && x.Valid(exact) && SeedOk(g, x) && b < g.a.batch && h < g.a.heads && q0 + nq <= g.a.tq
    requires 0 < nq <= bq && PowerOfTwo(tpr) && cpt > 0
    ensures |outs| == |lses| == |coefs| == nq
    ensures forall r: nat :: r < nq ==>
      RowResult(x.exp, x.ln, exact, x.fltMax, g.Seen(b, h, q0 + r), g.Cols(b, h), outs[r], lses[r], coefs[r])
  {
    var head := HeadOf(g, b, h, q0, nq);
    forall r: nat | r < bq ensures SeedBelow(head.Row(r), x.negMax) {
      SeedsOk(g, x, b, h, q0, nq, head, r);
    }
    ghost var cols;
    outs, lses, coefs, cols := AttnTiledCore(head, x.exp, x.ln, x.rnd, exact, x.negMax, x.fltMax, bq, tpr, cpt, inPlace);
    assert cols == g.Cols(b, h);
    forall r: nat | r < nq
      ensures RowResult(x.exp, x.ln, exact, x.fltMax, g.Seen(b, h, q0 + r), g.Cols(b, h), outs[r], lses[r], coefs[r])
    {
      TileSees(g, b, h, q0, nq, head, r);
    }
  }

  // What one row of the tile holds is RowHeld.
  lemma {:induction false} RowIsHeld(g: Grid, x: Numbers, exact: bool, held: (nat, nat, nat, seq<real>, real) -> bool,
                                     b: nat, h: nat, t: nat, row: seq<real>, l: real, out: seq<real>, coef: seq<real>)
    requires g.Valid() && b < g.a.batch && h < g.a.heads && t < g.a.tq && |row| == g.a.headDim && Means(g, x, exact, held)
    requires RowResult(x.exp, x.ln, exact, x.fltMax, g.Seen(b, h, t), g.Cols(b, h), out, l, coef)
    requires forall d: nat :: d < g.a.headDim ==> row[d] == x.store(out[d])
    ensures held(b, h, t, row, l)
  {
    assert RowHeld(g, x, exact, row, l, b, h, t);
  }

  // One threadgroup: the rows it has are held, every other output row and log-sum-exp keeps its value.
  method Threadgroup(g: Grid, x: Numbers, ghost exact: bool, ghost held: (nat, nat, nat, seq<real>, real) -> bool,
                     o: array<real>, lse: array<real>, i: nat, bh: nat, bq: nat, tpr: nat, cpt: nat, inPlace: bool)
    requires g.Valid() && x.Valid(exact) && SeedOk(g, x) && Means(g, x, exact, held)
    requires g.a.heads > 0 && bh < g.a.batch * g.a.heads && o != lse && o.Length == OutSize(g.a) && lse.Length == LseSize(g.a)
    requires 0 < bq && PowerOfTwo(tpr) && cpt > 0
    modifies o, lse
    ensures forall b: nat, h: nat, t: nat | b < g.a.batch && h < g.a.heads && t < g.a.tq ::
      if Has(g.a, i, bh, bq, b, h, t) then Held(g.a, held, o[..], lse[..], b, h, t)
      else Kept(g.a, o[..], lse[..], old(o[..]), old(lse[..]), b, h, t)
  {
    SplitBatchHead(bh, g.a.heads, g.a.batch);
    var b, h, q0 := bh / g.a.heads, bh % g.a.heads, i * bq;
    if q0 >= g.a.tq {
      return;
    }
    var nq := if bq < g.a.tq - q0 then bq else g.a.tq - q0;
    var outs, lses;
    ghost var coefs;
    outs, lses, coefs := RunTile(g, x, exact, b, h, q0, nq, bq, tpr, cpt, inPlace);
    ghost var rows := StoreTile(g, x, exact, o, lse, b, h, q0, outs, lses, coefs);
    forall b': nat, h': nat, t: nat | b' < g.a.batch && h' < g.a.heads && t < g.a.tq && Has(g.a, i, bh, bq, b', h', t)
      ensures Held(g.a, held, o[..], lse[..], b', h', t)
    {
      var r := t - q0;
      RowIsHeld(g, x, exact, held, b, h, t, rows[r], lses[r], outs[r], coefs[r]);
    }
  }

  ghost predicate Ran(a: Launch, order: seq<(nat, nat)>, bq: nat, b: nat, h: nat, t: nat)
    requires a.heads > 0
  {
    exists k :: k in order && Has(a, k.0, k.1, bq, b, h, t)
  }

  // Every row has its threadgroup in a covering order.
  lemma {:induction false} AllRan(a: Launch, order: seq<(nat, nat)>, bq: nat, b: nat, h: nat, t: nat)
    requires a.heads > 0 && 0 < bq && b < a.batch && h < a.heads && t < a.tq
    requires forall i: nat, bh: nat :: i * bq < a.tq && bh < a.batch * a.heads ==> (i, bh) in order
    ensures Ran(a, order, bq, b, h, t)
  {
    CellFits(a.batch, a.heads, b, h);
    ModUnique(b * a.heads + h, b, h, a.heads);
    var i := t / bq;
    assert t == i * bq + t % bq;
    assert (i, b * a.heads + h) in order;
    assert Has(a, i, b * a.heads + h, bq, b, h, t);
  }

  // The rows of the threadgroups run so far are held.
  ghost predicate AllHeld(a: Launch, held: (nat, nat, nat, seq<real>, real) -> bool, os: seq<real>, ls: seq<real>,
                          order: seq<(nat, nat)>, bq: nat)
    requires a.heads > 0 && |os| == OutSize(a) && |ls| == LseSize(a)
  {
    forall b: nat, h: nat, t: nat | b < a.batch && h < a.heads && t < a.tq && Ran(a, order, bq, b, h, t) ::
      Held(a, held, os, ls, b, h, t)
  }

  lemma {:induction false} OneMoreRan(a: Launch, held: (nat, nat, nat, seq<real>, real) -> bool, os: seq<real>, ls: seq<real>,
                                      os': seq<real>, ls': seq<real>, order: seq<(nat, nat)>, k: (nat, nat), bq: nat)
    requires a.heads > 0 && |os| == |os'| == OutSize(a) && |ls| == |ls'| == LseSize(a) && AllHeld(a, held, os, ls, order, bq)
    requires forall b: nat, h: nat, t: nat | b < a.batch && h < a.heads && t < a.tq ::
      if Has(a, k.0, k.1, bq, b, h, t) then Held(a, held, os', ls', b, h, t) else Kept(a, os', ls', os, ls, b, h, t)
    ensures AllHeld(a, held, os', ls', order + [k], bq)
  {
    forall b: nat, h: nat, t: nat | b < a.batch && h < a.heads && t < a.tq && Ran(a, order + [k], bq, b, h, t)
      ensures Held(a, held, os', ls', b, h, t)
    {
      if !Has(a, k.0, k.1, bq, b, h, t) {
        assert Ran(a, order, bq, b, h, t);
        assert Held(a, held, os, ls, b, h, t);
      }
    }
  }

  // All threadgroups in any order, repeats included: afterwards every row of the dispatch is held.
  method Dispatch(g: Grid, x: Numbers, ghost exact: bool, ghost held: (nat, nat, nat, seq<real>, real) -> bool,
                  o: array<real>, lse: array<real>, order: seq<(nat, nat)>, bq: nat, tpr: nat, cpt: nat, inPlace: bool)
    requires g.Valid() && x.Valid(exact) && SeedOk(g, x) && Means(g, x, exact, held)
    requires g.a.heads > 0 && o != lse && o.Length == OutSize(g.a) && lse.Length == LseSize(g.a)
    requires 0 < bq && PowerOfTwo(tpr) && cpt > 0
    requires forall k :: k in order ==> k.1 < g.a.batch * g.a.heads
    requires forall i: nat, bh: nat :: i * bq < g.a.tq && bh < g.a.batch * g.a.heads ==> (i, bh) in order
    modifies o, lse
    ensures forall b: nat, h: nat, t: nat | b < g.a.batch && h < g.a.heads && t < g.a.tq ::
      Held(g.a, held, o[..], lse[..], b, h, t)
  {
    for n := 0 to |order|
      invariant AllHeld(g.a, held, o[..], lse[..], order[..n], bq)
    {
      ghost var os, ls := o[..], lse[..];
      Threadgroup(g, x, exact, held, o, lse, order[n].0, order[n].1, bq, tpr, cpt, inPlace);
      OneMoreRan(g.a, held, os, ls, o[..], lse[..], order[..n], order[n], bq);
      assert order[..n + 1] == order[..n] + [order[n]];
    }
    assert order[..|order|] == order;
    forall b: nat, h: nat, t: nat | b < g.a.batch && h < g.a.heads && t < g.a.tq ensures Ran(g.a, order, bq, b, h, t) {
      AllRan(g.a, order, bq, b, h, t);
    }
  }

  // Unrounded, a held row is the plain softmax of what it sees, and its log-sum-exp that of the unshifted sum.
  lemma {:induction false} HeldIsSoftmax(g: Grid, x: Numbers, row: seq<real>, l: real, b: nat, h: nat, t: nat, d: nat)
    requires g.Valid() && b < g.a.batch && h < g.a.heads && t < g.a.tq && d < g.a.headDim && |row| == g.a.headDim
    requires RowHeld(g, x, true, row, l, b, h, t)
    ensures row[d] == x.store(Attend(x.exp, g.Seen(b, h, t), g.Cols(b, h)[d]))
    ensures l == if SomeLive(g.Seen(b, h, t), g.tkv[b]) then x.ln(Mass(x.exp, g.Seen(b, h, t), 0.0, g.tkv[b])) else x.fltMax
  {
    var out, coef :|
      RowResult(x.exp, x.ln, true, x.fltMax, g.Seen(b, h, t), g.Cols(b, h), out, l, coef)
      && forall d: nat :: d < g.a.headDim ==> row[d] == x.store(out[d]);
    assert |g.Cols(b, h)[d]| == |g.Seen(b, h, t)|;
  }

  // The two senses of `held` there are: what RowHeld says, and with nothing rounded the plain softmax.
  ghost function AsRowHeld(g: Grid, x: Numbers, exact: bool): (nat, nat, nat, seq<real>, real) -> bool
    requires g.Valid()
  {
    (b: nat, h: nat, t: nat, row: seq<real>, l: real) =>
      b < g.a.batch && h < g.a.heads && t < g.a.tq && |row| == g.a.headDim && RowHeld(g, x, exact, row, l, b, h, t)
  }

  ghost function AsSoftmax(g: Grid, x: Numbers): (nat, nat, nat, seq<real>, real) -> bool
    requires g.Valid()
  {
    (b: nat, h: nat, t: nat, row: seq<real>, l: real) =>
      b < g.a.batch && h < g.a.heads && t < g.a.tq && |row| == g.a.headDim
      && forall d: nat :: d < g.a.headDim ==> row[d] == x.store(Attend(x.exp, g.Seen(b, h, t), g.Cols(b, h)[d]))
  }

  lemma {:induction false} BothMean(g: Grid, x: Numbers, exact: bool)
    requires g.Valid()
    ensures Means(g, x, exact, AsRowHeld(g, x, exact)) && Means(g, x, true, AsSoftmax(g, x))
  {
    forall b: nat, h: nat, t: nat, row: seq<real>, l: real {:trigger RowHeld(g, x, true, row, l, b, h, t)}
      | b < g.a.batch && h < g.a.heads && t < g.a.tq && |row| == g.a.headDim && RowHeld(g, x, true, row, l, b, h, t)
      ensures AsSoftmax(g, x)(b, h, t, row, l)
    {
      forall d: nat | d < g.a.headDim
        ensures row[d] == x.store(Attend(x.exp, g.Seen(b, h, t), g.Cols(b, h)[d]))
      {
        HeldIsSoftmax(g, x, row, l, b, h, t, d);
      }
    }
  }
}
