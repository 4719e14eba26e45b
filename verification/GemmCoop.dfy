// One cooperative GEMM tile and the whole grid (kernels/gemm_coop.h): operand views, epilogue, and each element of C
// written by exactly one tile.
module GemmCoop {
  import opened Common
  import opened Layout
  import opened Lanes
  import opened TileWalks

  // ---------- operand views ----------

  // A strided view, first stride 1; a slice moves the origin and keeps the extents.
  datatype View = View(base: nat, ext0: nat, ext1: nat, stride: nat, o0: nat, o1: nat)
  {
    predicate In(i: nat, j: nat) { o0 + i < ext0 && o1 + j < ext1 }

    function Addr(i: nat, j: nat): nat { base + (o0 + i) + (o1 + j) * stride }
  }

  // C = A @ B: A is M x K (stored transposed for TN), B is K x N (stored transposed for NT).
  datatype Problem = Problem(m: nat, n: nat, k: nat, transA: bool, transB: bool, sm: nat, sn: nat)
  {
    predicate Valid() { sm > 0 && sn > 0 && n > 0 }

    // Where element (row, k) of A and (k, col) of B are stored.
    function AAt(row: nat, i: nat): nat { if transA then Cell(i, m, row) else Cell(row, k, i) }

    function BAt(i: nat, col: nat): nat { if transB then Cell(col, k, i) else Cell(i, n, col) }

    function AInterior(ty: nat): View {
      if transA then View(ty, sm, k, m, 0, 0) else View(ty * k, k, sm, k, 0, 0)
    }

    function AEdge(ty: nat): View {
      if transA then View(0, m, k, m, ty, 0) else View(0, k, m, k, 0, ty)
    }

    function BInterior(tx: nat): View {
      if transB then View(tx * k, k, sn, k, 0, 0) else View(tx, sn, k, n, 0, 0)
    }

    function BEdge(tx: nat): View {
      if transB then View(0, k, n, k, 0, tx) else View(0, n, k, n, tx, 0)
    }

    // C, or a per-column bias laid over it with row stride 0.
    function CInterior(tx: nat, ty: nat, rowStride: nat): View { View(ty * rowStride + tx, sn, sm, rowStride, 0, 0) }

    function CEdge(tx: nat, ty: nat, rowStride: nat): View { View(0, n, m, rowStride, tx, ty) }

    // Element (r, i) of a view of A, (i, c) of a view of B: the transposed layouts index the other way round.
    function AAddr(v: View, r: nat, i: nat): nat { if transA then v.Addr(r, i) else v.Addr(i, r) }

    predicate AIn(v: View, r: nat, i: nat) { if transA then v.In(r, i) else v.In(i, r) }

    function BAddr(v: View, i: nat, c: nat): nat { if transB then v.Addr(i, c) else v.Addr(c, i) }

    predicate BIn(v: View, i: nat, c: nat) { if transB then v.In(i, c) else v.In(c, i) }

    predicate IsInterior(tx: nat, ty: nat) { tx + sn <= n && ty + sm <= m }
  }

  // The edge slices address exactly the tile's own elements, and their bounds are the matrices' own.
  lemma {:induction false} EdgeViews(p: Problem, tx: nat, ty: nat, r: nat, c: nat, i: nat)
    requires i < p.k
    ensures p.AAddr(p.AEdge(ty), r, i) == p.AAt(ty + r, i) && (p.AIn(p.AEdge(ty), r, i) <==> ty + r < p.m)
    ensures p.BAddr(p.BEdge(tx), i, c) == p.BAt(i, tx + c) && (p.BIn(p.BEdge(tx), i, c) <==> tx + c < p.n)
    ensures p.CEdge(tx, ty, p.n).Addr(c, r) == Cell(ty + r, p.n, tx + c)
    ensures p.CEdge(tx, ty, p.n).In(c, r) <==> ty + r < p.m && tx + c < p.n
    ensures p.CEdge(tx, ty, 0).Addr(c, r) == tx + c
  {
  }

  // On an interior tile the offset views address the same elements as the edge slices, all of them in bounds.
  lemma {:induction false} InteriorViews(p: Problem, tx: nat, ty: nat, r: nat, c: nat, i: nat)
    requires p.IsInterior(tx, ty) && r < p.sm && c < p.sn && i < p.k
    ensures p.AAddr(p.AInterior(ty), r, i) == p.AAddr(p.AEdge(ty), r, i) && p.AIn(p.AInterior(ty), r, i) && p.AIn(p.AEdge(ty), r, i)
    ensures p.BAddr(p.BInterior(tx), i, c) == p.BAddr(p.BEdge(tx), i, c) && p.BIn(p.BInterior(tx), i, c) && p.BIn(p.BEdge(tx), i, c)
    ensures p.CInterior(tx, ty, p.n).Addr(c, r) == p.CEdge(tx, ty, p.n).Addr(c, r)
    ensures p.CInterior(tx, ty, p.n).In(c, r) && p.CEdge(tx, ty, p.n).In(c, r)
    ensures p.CInterior(tx, 0, 0).Addr(c, r) == p.CEdge(tx, ty, 0).Addr(c, r)
  {
    Offsets(ty, r, p.k);
    Offsets(tx, c, p.k);
    Offsets(ty, r, p.n);
  }

  lemma {:induction false} Offsets(a: nat, b: nat, w: nat)
    ensures a * w + b * w == (a + b) * w
  {
  }

  // ---------- the product ----------

  ghost predicate Stored(p: Problem, a: seq<real>, b: seq<real>) { |a| == p.m * p.k && |b| == p.k * p.n }

  lemma {:induction false} InStore(p: Problem, row: nat, col: nat, i: nat)
    requires row < p.m && col < p.n && i < p.k
    ensures p.AAt(row, i) < p.m * p.k && p.BAt(i, col) < p.k * p.n
  {
    if p.transA {
      CellFits(p.k, p.m, i, row);
    } else {
      CellFits(p.m, p.k, row, i);
    }
    if p.transB {
      CellFits(p.n, p.k, col, i);
    } else {
      CellFits(p.k, p.n, i, col);
    }
  }

  // Element (row, col) of A @ B over the first h of the k products.
  function Product(p: Problem, a: seq<real>, b: seq<real>, row: nat, col: nat, h: nat): real
    requires Stored(p, a, b) && row < p.m && col < p.n && h <= p.k
  {
    if h == 0 then 0.0
    else
      InStore(p, row, col, h - 1);
      Product(p, a, b, row, col, h - 1) + a[p.AAt(row, h - 1)] * b[p.BAt(h - 1, col)]
  }

  // matmul2d on one tile's views: element (r, c) of the tile. Exact, as a primitive.
  function TileProduct(p: Problem, a: seq<real>, b: seq<real>, va: View, vb: View, r: nat, c: nat, h: nat): real
    requires forall i :: 0 <= i < h ==> p.AAddr(va, r, i) < |a| && p.BAddr(vb, i, c) < |b|
  {
    if h == 0 then 0.0
    else TileProduct(p, a, b, va, vb, r, c, h - 1) + a[p.AAddr(va, r, h - 1)] * b[p.BAddr(vb, h - 1, c)]
  }

  // The views a tile uses.
  function AView(p: Problem, tx: nat, ty: nat): View { if p.IsInterior(tx, ty) then p.AInterior(ty) else p.AEdge(ty) }

  function BView(p: Problem, tx: nat, ty: nat): View { if p.IsInterior(tx, ty) then p.BInterior(tx) else p.BEdge(tx) }

  function CView(p: Problem, tx: nat, ty: nat): View {
    if p.IsInterior(tx, ty) then p.CInterior(tx, ty, p.n) else p.CEdge(tx, ty, p.n)
  }

  function BiasView(p: Problem, tx: nat, ty: nat): View {
    if p.IsInterior(tx, ty) then p.CInterior(tx, 0, 0) else p.CEdge(tx, ty, 0)
  }

  lemma {:induction false} ViewAt(p: Problem, tx: nat, ty: nat, r: nat, c: nat, i: nat)
    requires r < p.sm && c < p.sn && i < p.k && ty + r < p.m && tx + c < p.n
    ensures p.AAddr(AView(p, tx, ty), r, i) == p.AAt(ty + r, i) && p.BAddr(BView(p, tx, ty), i, c) == p.BAt(i, tx + c)
  {
    EdgeViews(p, tx, ty, r, c, i);
    if p.IsInterior(tx, ty) {
      InteriorViews(p, tx, ty, r, c, i);
    }
  }

  lemma {:induction false} ViewsFit(p: Problem, a: seq<real>, b: seq<real>, tx: nat, ty: nat, r: nat, c: nat)
    requires Stored(p, a, b) && r < p.sm && c < p.sn && ty + r < p.m && tx + c < p.n
    ensures forall i :: 0 <= i < p.k ==> p.AAddr(AView(p, tx, ty), r, i) < |a| && p.BAddr(BView(p, tx, ty), i, c) < |b|
  {
    forall i | 0 <= i < p.k ensures p.AAddr(AView(p, tx, ty), r, i) < |a| && p.BAddr(BView(p, tx, ty), i, c) < |b| {
      ViewAt(p, tx, ty, r, c, i);
      InStore(p, ty + r, tx + c, i);
    }
  }

  // Whichever views a tile takes, its product is its part of A @ B.
  lemma {:induction false} TileIsProduct(p: Problem, a: seq<real>, b: seq<real>, tx: nat, ty: nat, r: nat, c: nat, h: nat)
    requires Stored(p, a, b) && r < p.sm && c < p.sn && ty + r < p.m && tx + c < p.n && h <= p.k
    requires forall i :: 0 <= i < h ==> p.AAddr(AView(p, tx, ty), r, i) < |a| && p.BAddr(BView(p, tx, ty), i, c) < |b|
    ensures TileProduct(p, a, b, AView(p, tx, ty), BView(p, tx, ty), r, c, h) == Product(p, a, b, ty + r, tx + c, h)
  {
    if h > 0 {
      TileIsProduct(p, a, b, tx, ty, r, c, h - 1);
      ViewAt(p, tx, ty, r, c, h - 1);
    }
  }

  // ---------- the epilogue ----------

  function Combine(alpha: real, ab: real, beta: real, prev: real, biasAt: real): real { alpha * ab + beta * prev + biasAt }

  // `act` is the activation (the identity for none) and `narrow` the optional bf16 round trip.
  datatype Mode = Plain | Accum | Epilogue(alpha: real, beta: real, bias: Option<seq<real>>, act: real -> real, narrow: real -> real)
  {
    predicate Fits(n: nat) { Epilogue? && bias.Some? ==> |bias.value| >= n }

    // What the passes over a tile's registers leave in one of them.
    method Passes(ab: real, prev: real, biasAt: real) returns (v: real)
      ensures v == Finish(ab, prev, biasAt)
    {
      v := ab;
      if Accum? {
        v := v + prev;
      }
      if Epilogue? {
        if beta != 0.0 {
          v := v * alpha + beta * prev;
        } else if alpha != 1.0 {
          v := v * alpha;
        }
        if bias.Some? {
          v := v + biasAt;
        }
        assert v == Combine(alpha, ab, beta, prev, if bias.Some? then biasAt else 0.0);
        v := act(v);
        v := narrow(v);
      }
    }

    // act(alpha * AB + beta * C + bias), or C + AB, or AB.
    function Finish(ab: real, prev: real, biasAt: real): real {
      match this
      case Plain => ab
      case Accum => prev + ab
      case Epilogue(alpha, beta, bias, act, narrow) =>
        narrow(act(Combine(alpha, ab, beta, prev, if bias.Some? then biasAt else 0.0)))
    }

    function BiasAt(col: nat): real { if Epilogue? && bias.Some? && col < |bias.value| then bias.value[col] else 0.0 }
  }

  // ---------- one tile ----------

  function RowOf(p: Problem, idx: nat): nat
    requires p.n > 0
  {
    idx / p.n
  }

  function ColOf(p: Problem, idx: nat): nat
    requires p.n > 0
  {
    idx % p.n
  }

  lemma {:induction false} Element(p: Problem, idx: nat)
    requires p.n > 0 && idx < p.m * p.n
    ensures RowOf(p, idx) < p.m && ColOf(p, idx) < p.n && idx == Cell(RowOf(p, idx), p.n, ColOf(p, idx))
  {
    if RowOf(p, idx) >= p.m {
      MulMono(p.m, RowOf(p, idx), p.n);
    }
  }

  lemma {:induction false} ElementAt(p: Problem, row: nat, col: nat)
    requires row < p.m && col < p.n
    ensures Cell(row, p.n, col) < p.m * p.n && RowOf(p, Cell(row, p.n, col)) == row && ColOf(p, Cell(row, p.n, col)) == col
  {
    CellFits(p.m, p.n, row, col);
    ModUnique(Cell(row, p.n, col), row, col, p.n);
  }

  // What element idx of C becomes.
  ghost function Out(p: Problem, mode: Mode, a: seq<real>, b: seq<real>, was: seq<real>, idx: nat): real
    requires p.Valid() && Stored(p, a, b) && mode.Fits(p.n) && idx < p.m * p.n <= |was|
  {
    Element(p, idx);
    mode.Finish(Product(p, a, b, RowOf(p, idx), ColOf(p, idx), p.k), was[idx], mode.BiasAt(ColOf(p, idx)))
  }

  // Main: in elements of the flat buffers. An element of A @ B is the sum of these products,
  lemma {:induction false} ProductElements(p: Problem, a: seq<real>, b: seq<real>, row: nat, col: nat, i: nat, aAt: nat, bAt: nat)
    requires p.Valid() && Stored(p, a, b) && row < p.m && col < p.n && i < p.k
    requires aAt == (if p.transA then i * p.m + row else row * p.k + i) && bAt == if p.transB then col * p.k + i else i * p.n + col
    ensures aAt < |a| && bAt < |b| && Product(p, a, b, row, col, 0) == 0.0
    ensures Product(p, a, b, row, col, i + 1) == Product(p, a, b, row, col, i) + a[aAt] * b[bAt]
  {
    InStore(p, row, col, i);
  }

  lemma {:induction false} FinishIs(mode: Mode, ab: real, prev: real, biasAt: real, z: real)
    requires mode.Epilogue? && z == mode.alpha * ab + mode.beta * prev + if mode.bias.Some? then biasAt else 0.0
    ensures mode.Finish(ab, prev, biasAt) == mode.narrow(mode.act(z))
  {
    assert Combine(mode.alpha, ab, mode.beta, prev, if mode.bias.Some? then biasAt else 0.0) == z;
  }

  lemma {:induction false} OutFinishes(p: Problem, mode: Mode, a: seq<real>, b: seq<real>, was: seq<real>, row: nat, col: nat, idx: nat)
    requires p.Valid() && Stored(p, a, b) && mode.Fits(p.n) && row < p.m && col < p.n && idx == row * p.n + col && p.m * p.n <= |was|
    ensures idx < p.m * p.n
    ensures Out(p, mode, a, b, was, idx) == mode.Finish(Product(p, a, b, row, col, p.k), was[idx], mode.BiasAt(col))
  {
    ElementAt(p, row, col);
  }

  // and C[row * n + col] becomes that sum `ab`, or `ab` on top of what was there, or the epilogue's z activated and narrowed.
  lemma {:induction false} OutIs(p: Problem, mode: Mode, a: seq<real>, b: seq<real>, was: seq<real>, row: nat, col: nat, idx: nat,
                                 ab: real, z: real)
    requires p.Valid() && Stored(p, a, b) && mode.Fits(p.n) && row < p.m && col < p.n && idx == row * p.n + col && p.m * p.n <= |was|
    requires idx < |was| && ab == Product(p, a, b, row, col, p.k)
    requires mode.Epilogue? ==>
               z == mode.alpha * ab + mode.beta * was[idx] + if mode.bias.Some? then mode.bias.value[col] else 0.0
    ensures idx < p.m * p.n
    ensures mode.Plain? ==> Out(p, mode, a, b, was, idx) == ab
    ensures mode.Accum? ==> Out(p, mode, a, b, was, idx) == was[idx] + ab
    ensures mode.Epilogue? ==> Out(p, mode, a, b, was, idx) == mode.narrow(mode.act(z))
  {
    OutFinishes(p, mode, a, b, was, row, col, idx);
    if mode.Epilogue? { FinishIs(mode, ab, was[idx], mode.BiasAt(col), z); }
  }

  // idx is in the tile at (tx, ty), above row r of it, or in row r and left of column c.
  predicate Above(p: Problem, idx: nat, tx: nat, ty: nat, r: nat, c: nat)
    requires p.n > 0
  {
    ty <= RowOf(p, idx) && tx <= ColOf(p, idx) < tx + p.sn
    && (RowOf(p, idx) < ty + r || (RowOf(p, idx) == ty + r && ColOf(p, idx) < tx + c))
  }

  ghost predicate Written(now: seq<real>, was: seq<real>, p: Problem, mode: Mode, a: seq<real>, b: seq<real>,
                          tx: nat, ty: nat, r: nat, c: nat)
    requires p.Valid() && Stored(p, a, b) && mode.Fits(p.n)
  {
    |now| == |was| >= p.m * p.n
    && forall idx :: 0 <= idx < |now| ==>
         now[idx] == if idx < p.m * p.n && Above(p, idx, tx, ty, r, c) then Out(p, mode, a, b, was, idx) else was[idx]
  }

  // One element: its product, its passes, its store.
  method TileElement(p: Problem, mode: Mode, a: seq<real>, b: seq<real>, c: array<real>, ghost was: seq<real>,
                     tx: nat, ty: nat, r: nat, i: nat)
    requires p.Valid() && Stored(p, a, b) && mode.Fits(p.n) && r < p.sm && i < p.sn
    requires Written(c[..], was, p, mode, a, b, tx, ty, r, i)
    modifies c
    ensures Written(c[..], was, p, mode, a, b, tx, ty, r, i + 1)
  {
    var vc := CView(p, tx, ty);
    ViewC(p, tx, ty, r, i);
    if vc.In(i, r) {
      var at := vc.Addr(i, r);
      ViewsFit(p, a, b, tx, ty, r, i);
      TileIsProduct(p, a, b, tx, ty, r, i, p.k);
      var ab := TileProduct(p, a, b, AView(p, tx, ty), BView(p, tx, ty), r, i, p.k);
      ElementAt(p, ty + r, tx + i);
      var bias := 0.0;
      if mode.Epilogue? && mode.bias.Some? {
        bias := mode.bias.value[BiasView(p, tx, ty).Addr(i, r)];
      }
      var v := mode.Passes(ab, c[at], bias);
      c[at] := v;
      OneElement(p, tx, ty, r, i, at);
    } else {
      NoElement(p, tx, ty, r, i);
    }
  }

  lemma {:induction false} ViewC(p: Problem, tx: nat, ty: nat, r: nat, c: nat)
    requires r < p.sm && c < p.sn
    ensures CView(p, tx, ty).In(c, r) <==> ty + r < p.m && tx + c < p.n
    ensures CView(p, tx, ty).Addr(c, r) == Cell(ty + r, p.n, tx + c)
    ensures BiasView(p, tx, ty).Addr(c, r) == tx + c
  {
    Offsets(ty, r, p.n);
  }

  // The next element of the tile is the one at its address, and no other.
  lemma {:induction false} OneElement(p: Problem, tx: nat, ty: nat, r: nat, c: nat, at: nat)
    requires p.Valid() && c < p.sn && ty + r < p.m && tx + c < p.n && at == Cell(ty + r, p.n, tx + c)
    ensures forall idx: nat :: idx < p.m * p.n ==> (Above(p, idx, tx, ty, r, c + 1) <==> Above(p, idx, tx, ty, r, c) || idx == at)
    ensures at < p.m * p.n && !Above(p, at, tx, ty, r, c)
  {
    ElementAt(p, ty + r, tx + c);
    forall idx: nat | idx < p.m * p.n ensures Above(p, idx, tx, ty, r, c + 1) <==> Above(p, idx, tx, ty, r, c) || idx == at {
      Element(p, idx);
    }
  }

  lemma {:induction false} NoElement(p: Problem, tx: nat, ty: nat, r: nat, c: nat)
    requires p.Valid() && !(ty + r < p.m && tx + c < p.n)
    ensures forall idx: nat :: idx < p.m * p.n ==> (Above(p, idx, tx, ty, r, c + 1) <==> Above(p, idx, tx, ty, r, c))
  {
    forall idx: nat | idx < p.m * p.n ensures Above(p, idx, tx, ty, r, c + 1) <==> Above(p, idx, tx, ty, r, c) {
      Element(p, idx);
    }
  }

  // One tile: every in-bounds element of it is written once.
  method CoopTile(p: Problem, mode: Mode, a: seq<real>, b: seq<real>, c: array<real>, tx: nat, ty: nat)
    requires p.Valid() && Stored(p, a, b) && mode.Fits(p.n) && p.m * p.n <= c.Length
    modifies c
    ensures Written(c[..], old(c[..]), p, mode, a, b, tx, ty, p.sm, 0)
  {
    ghost var was := c[..];
    for r := 0 to p.sm
      invariant Written(c[..], was, p, mode, a, b, tx, ty, r, 0)
    {
      for i := 0 to p.sn
        invariant Written(c[..], was, p, mode, a, b, tx, ty, r, i)
      {
        TileElement(p, mode, a, b, c, was, tx, ty, r, i);
      }
      assert forall idx :: 0 <= idx < |was| ==> (Above(p, idx, tx, ty, r, p.sn) <==> Above(p, idx, tx, ty, r + 1, 0));
    }
  }

  // ---------- the grid ----------

  function TilesN(p: Problem): nat
    requires p.sn > 0
  {
    (p.n + p.sn - 1) / p.sn
  }

  function TilesM(p: Problem): nat
    requires p.sm > 0
  {
    (p.m + p.sm - 1) / p.sm
  }

  // The tile an element of C lies in.
  function TileOf(p: Problem, idx: nat): Tile
    requires p.Valid()
  {
    Tile(ColOf(p, idx) / p.sn, RowOf(p, idx) / p.sm)
  }

  lemma {:induction false} InItsTile(x: nat, size: nat, at: nat)
    requires size > 0
    ensures at * size <= x < at * size + size <==> x / size == at
  {
    var q := x / size;
    assert x == q * size + x % size;
    if q < at {
      MulMono(q + 1, at, size);
    } else if q > at {
      MulMono(at + 1, q, size);
    }
  }

  lemma {:induction false} TileInGrid(x: nat, length: nat, size: nat)
    requires size > 0 && x < length
    ensures x / size < (length + size - 1) / size
  {
    var q := (length + size - 1) / size;
    assert length + size - 1 == q * size + (length + size - 1) % size;
    InItsTile(x, size, x / size);
    if x / size >= q {
      MulMono(q, x / size, size);
    }
  }

  // Tiles whose ids have run hold their result; the others are as they were.
  ghost predicate Ran(now: seq<real>, was: seq<real>, p: Problem, mode: Mode, a: seq<real>, b: seq<real>, w: Walk, todo: set<nat>)
    requires p.Valid() && Stored(p, a, b) && mode.Fits(p.n) && w.Valid() && w.Fits(TilesN(p), TilesM(p), p.n, p.k)
  {
    |now| == |was| >= p.m * p.n
    && forall idx :: 0 <= idx < |now| ==>
         now[idx] == if idx < p.m * p.n && IdAt(p, w, idx) !in todo then Out(p, mode, a, b, was, idx) else was[idx]
  }

  // The id whose tile holds the element.
  function IdAt(p: Problem, w: Walk, idx: nat): nat
    requires p.Valid() && w.Valid() && idx < p.m * p.n
  {
    Element(p, idx);
    TileInGrid(ColOf(p, idx), p.n, p.sn);
    TileInGrid(RowOf(p, idx), p.m, p.sm);
    w.IdOf(TileOf(p, idx), TilesN(p), TilesM(p), p.n, p.k)
  }

  lemma {:induction false} IdAtIs(p: Problem, w: Walk, idx: nat, id: nat)
    requires p.Valid() && w.Valid() && idx < p.m * p.n && w.Fits(TilesN(p), TilesM(p), p.n, p.k) && id < U32
    ensures TilesN(p) > 0 && IdAt(p, w, idx) < TilesN(p) * TilesM(p)
    ensures w.At(id, TilesN(p), TilesM(p), p.n, p.k) == TileOf(p, idx) <==> id == IdAt(p, w, idx)
  {
    Element(p, idx);
    TileInGrid(ColOf(p, idx), p.n, p.sn);
    TileInGrid(RowOf(p, idx), p.m, p.sm);
    w.Visits(TileOf(p, idx), TilesN(p), TilesM(p), p.n, p.k);
    w.Inside(id, TilesN(p), TilesM(p), p.n, p.k);
  }

  // mm_coop for one threadgroup.
  method MmCoop(p: Problem, mode: Mode, a: seq<real>, b: seq<real>, c: array<real>, w: Walk, tgpig: nat, ghost was: seq<real>, ghost todo: set<nat>)
    requires p.Valid() && Stored(p, a, b) && mode.Fits(p.n) && w.Valid() && TilesN(p) > 0 && w.Fits(TilesN(p), TilesM(p), p.n, p.k)
    requires tgpig < U32 && Ran(c[..], was, p, mode, a, b, w, todo) && tgpig in todo
    modifies c
    ensures Ran(c[..], was, p, mode, a, b, w, todo - {tgpig})
  {
    var tile := w.At(tgpig, TilesN(p), TilesM(p), p.n, p.k);
    if tile.x >= TilesN(p) || tile.y >= TilesM(p) {
      Rejected(c[..], was, p, mode, a, b, w, todo, tgpig);
      return;
    }
    ghost var before := c[..];
    CoopTile(p, mode, a, b, c, tile.x * p.sn, tile.y * p.sm);
    OneTile(c[..], before, was, p, mode, a, b, w, todo, tgpig);
  }

  lemma {:induction false} Rejected(now: seq<real>, was: seq<real>, p: Problem, mode: Mode, a: seq<real>, b: seq<real>, w: Walk,
                                    todo: set<nat>, id: nat)
    requires p.Valid() && Stored(p, a, b) && mode.Fits(p.n) && w.Valid() && TilesN(p) > 0 && w.Fits(TilesN(p), TilesM(p), p.n, p.k)
    requires id < U32 && Ran(now, was, p, mode, a, b, w, todo) && !w.At(id, TilesN(p), TilesM(p), p.n, p.k).In(TilesN(p), TilesM(p))
    ensures Ran(now, was, p, mode, a, b, w, todo - {id})
  {
    forall idx | 0 <= idx < p.m * p.n ensures IdAt(p, w, idx) != id {
      IdAtIs(p, w, idx, id);
      Element(p, idx);
      TileInGrid(ColOf(p, idx), p.n, p.sn);
      TileInGrid(RowOf(p, idx), p.m, p.sm);
    }
  }

  // The elements of tile t are those whose id it is.
  lemma {:induction false} TileHas(p: Problem, w: Walk, idx: nat, id: nat, t: Tile)
    requires p.Valid() && w.Valid() && TilesN(p) > 0 && w.Fits(TilesN(p), TilesM(p), p.n, p.k) && id < U32 && idx < p.m * p.n
    requires t == w.At(id, TilesN(p), TilesM(p), p.n, p.k)
    ensures Above(p, idx, t.x * p.sn, t.y * p.sm, p.sm, 0) <==> IdAt(p, w, idx) == id
  {
    IdAtIs(p, w, idx, id);
    TileSpans(p, idx, t);
  }

  lemma {:induction false} TileSpans(p: Problem, idx: nat, t: Tile)
    requires p.Valid()
    ensures Above(p, idx, t.x * p.sn, t.y * p.sm, p.sm, 0) <==> t == TileOf(p, idx)
  {
    InItsTile(ColOf(p, idx), p.sn, t.x);
    InItsTile(RowOf(p, idx), p.sm, t.y);
  }

  lemma {:induction false} OneTile(now: seq<real>, before: seq<real>, was: seq<real>, p: Problem, mode: Mode, a: seq<real>, b: seq<real>,
                                   w: Walk, todo: set<nat>, id: nat)
    requires p.Valid() && Stored(p, a, b) && mode.Fits(p.n) && w.Valid() && TilesN(p) > 0 && w.Fits(TilesN(p), TilesM(p), p.n, p.k)
    requires id < U32 && id in todo && Ran(before, was, p, mode, a, b, w, todo)
    requires var t := w.At(id, TilesN(p), TilesM(p), p.n, p.k);
             Written(now, before, p, mode, a, b, t.x * p.sn, t.y * p.sm, p.sm, 0)
    ensures Ran(now, was, p, mode, a, b, w, todo - {id})
  {
    forall idx | 0 <= idx < |now|
      ensures now[idx] == if idx < p.m * p.n && IdAt(p, w, idx) !in todo - {id} then Out(p, mode, a, b, was, idx) else was[idx]
    {
      OneTileAt(now, before, was, p, mode, a, b, w, todo, id, idx);
    }
  }

  lemma {:induction false} OneTileAt(now: seq<real>, before: seq<real>, was: seq<real>, p: Problem, mode: Mode, a: seq<real>, b: seq<real>,
                                     w: Walk, todo: set<nat>, id: nat, idx: nat)
    requires p.Valid() && Stored(p, a, b) && mode.Fits(p.n) && w.Valid() && TilesN(p) > 0 && w.Fits(TilesN(p), TilesM(p), p.n, p.k)
    requires id < U32 && id in todo && Ran(before, was, p, mode, a, b, w, todo) && idx < |now|
    requires var t := w.At(id, TilesN(p), TilesM(p), p.n, p.k);
             Written(now, before, p, mode, a, b, t.x * p.sn, t.y * p.sm, p.sm, 0)
    ensures now[idx] == if idx < p.m * p.n && IdAt(p, w, idx) !in todo - {id} then Out(p, mode, a, b, was, idx) else was[idx]
  {
    if idx < p.m * p.n {
      TileHas(p, w, idx, id, w.At(id, TilesN(p), TilesM(p), p.n, p.k));
    }
  }

  // All threadgroups, in any order; ids past the grid among them are rejected. Every element of C becomes its result
  // from the C there was, and nothing past the matrix is written.
  method RunGrid(p: Problem, mode: Mode, a: seq<real>, b: seq<real>, c: array<real>, w: Walk, ids: set<nat>)
    requires p.Valid() && Stored(p, a, b) && mode.Fits(p.n) && w.Valid() && p.m * p.n <= c.Length
    requires TilesN(p) > 0 && w.Fits(TilesN(p), TilesM(p), p.n, p.k)
    requires (forall id :: id in ids ==> id < U32) && forall id: nat :: id < TilesN(p) * TilesM(p) ==> id in ids
    modifies c
    ensures forall idx :: 0 <= idx < c.Length ==>
              c[idx] == if idx < p.m * p.n then Out(p, mode, a, b, old(c[..]), idx) else old(c[idx])
  {
    ghost var was := c[..];
    var todo := ids;
    forall idx | 0 <= idx < p.m * p.n ensures IdAt(p, w, idx) in todo {
      IdAtIs(p, w, idx, 0);
    }
    while todo != {}
      invariant todo <= ids && Ran(c[..], was, p, mode, a, b, w, todo)
      decreases |todo|
    {
      var id :| id in todo;
      MmCoop(p, mode, a, b, c, w, id, was, todo);
      todo := todo - {id};
    }
  }
}
