// The one-simdgroup-per-row attention body (kernels/attn_rows.h): R lanes share a query row, each owning
// the float4s dl, dl + R, dl + 2R, ... of the head; keys are folded in one at a time.
module AttnRows {
  import opened Common
  import opened OnlineSoftmax
  import opened AttnMask
  import opened Butterfly
  import opened Lanes

  // Head coordinate of component e of lane dl's slice: component e % 4 of float4 dl + (e / 4) R.
  function Coord(dl: nat, r: nat, e: nat): nat {
    4 * (dl + e / 4 * r) + e % 4
  }

  lemma {:induction false} CoordFits(dl: nat, r: nat, dpv: nat, e: nat)
    requires dl < r && e < 4 * dpv
    ensures Coord(dl, r, e) < 4 * (r * dpv)
  {
    MulMono(e / 4 + 1, dpv, r);
  }

  // Every coordinate of the head belongs to some lane.
  lemma {:induction false} CoordOwner(d: nat, r: nat, dpv: nat) returns (dl: nat, e: nat)
    requires r > 0 && d < 4 * (r * dpv)
    ensures dl < r && e < 4 * dpv && Coord(dl, r, e) == d
  {
    var i := d / 4;
    dl := i % r;
    var j := i / r;
    assert i == j * r + dl;
    if j >= dpv {
      MulMono(dpv, j, r);
    }
    e := 4 * j + d % 4;
  }

  // Product of the i-th float4 of q and k, summed over its components.
  ghost function Quad(q: seq<real>, k: seq<real>, i: nat): real
    requires 4 * i + 4 <= |q| && 4 * i + 4 <= |k|
  {
    q[4 * i] * k[4 * i] + q[4 * i + 1] * k[4 * i + 1] + q[4 * i + 2] * k[4 * i + 2] + q[4 * i + 3] * k[4 * i + 3]
  }

  // What lane dl holds after n of its float4 products.
  ghost function LanePart(q: seq<real>, k: seq<real>, r: nat, dl: nat, n: nat): real
    requires |q| == |k| && dl < r && 4 * (r * n) <= |q|
    decreases n
  {
    if n == 0 then 0.0
    else
      MulMono(n - 1, n, r);
      LaneQuadFits(dl, r, n);
      LanePart(q, k, r, dl, n - 1) + Quad(q, k, dl + (n - 1) * r)
  }

  lemma {:induction false} LaneQuadFits(dl: nat, r: nat, n: nat)
    requires dl < r && n > 0
    ensures dl + (n - 1) * r < n * r == r * n
    ensures (n - 1) * r + r == n * r
  {
  }

  // Consecutive quads are a stretch of the dot product.
  lemma {:induction false} QuadRun(q: seq<real>, k: seq<real>, base: nat, j: nat, terms: seq<real>)
    requires |q| == |k| && 4 * (base + j) <= |q| && |terms| == j
    requires forall i: nat :: i < j ==> terms[i] == Quad(q, k, base + i)
    ensures Dot(q, k, 4 * base) + Sum(terms) == Dot(q, k, 4 * (base + j))
    decreases j
  {
    if j > 0 {
      QuadRun(q, k, base, j - 1, terms[..j - 1]);
      var i := base + j - 1;
      assert terms[j - 1] == Quad(q, k, i);
      assert Dot(q, k, 4 * i + 2) == Dot(q, k, 4 * i) + q[4 * i] * k[4 * i] + q[4 * i + 1] * k[4 * i + 1];
      assert Dot(q, k, 4 * i + 4) == Dot(q, k, 4 * i + 2) + q[4 * i + 2] * k[4 * i + 2] + q[4 * i + 3] * k[4 * i + 3];
    }
  }

  lemma {:induction false} SumAdds(a: seq<real>, b: seq<real>, c: seq<real>)
    requires |a| == |b| == |c| && forall i :: 0 <= i < |a| ==> c[i] == a[i] + b[i]
    ensures Sum(c) == Sum(a) + Sum(b)
  {
    if a != [] {
      var n := |a| - 1;
      SumAdds(a[..n], b[..n], c[..n]);
    }
  }

  ghost function LaneParts(q: seq<real>, k: seq<real>, r: nat, n: nat): (parts: seq<real>)
    requires |q| == |k| && 4 * (r * n) <= |q|
    ensures |parts| == r && forall dl: nat :: dl < r ==> parts[dl] == LanePart(q, k, r, dl, n)
  {
    seq(r, dl requires 0 <= dl < r => LanePart(q, k, r, dl, n))
  }

  lemma {:induction false} NextPart(q: seq<real>, k: seq<real>, r: nat, dl: nat, m: nat, n: nat, base: nat)
    requires |q| == |k| && dl < r && n == m + 1 && base == m * r && base + r == r * n && 4 * (r * n) <= |q| && 4 * (r * m) <= |q|
    ensures LanePart(q, k, r, dl, n) == LanePart(q, k, r, dl, m) + Quad(q, k, base + dl)
  {
  }

  // The lanes' next products are the next r quads.
  lemma {:induction false} LanePartsNext(q: seq<real>, k: seq<real>, r: nat, m: nat, n: nat, base: nat)
    requires |q| == |k| && n == m + 1 && base == m * r && base + r == n * r && r * n == n * r && r * m == m * r
    requires 4 * (r * n) <= |q| && 4 * (r * m) <= |q|
    ensures Dot(q, k, 4 * base) + Sum(LaneParts(q, k, r, n)) == Sum(LaneParts(q, k, r, m)) + Dot(q, k, 4 * (base + r))
  {
    var terms := seq(r, dl requires 0 <= dl < r => Quad(q, k, base + dl));
    forall dl: nat | dl < r ensures LaneParts(q, k, r, n)[dl] == LaneParts(q, k, r, m)[dl] + terms[dl] {
      NextPart(q, k, r, dl, m, n, base);
    }
    SumAdds(LaneParts(q, k, r, m), terms, LaneParts(q, k, r, n));
    QuadRun(q, k, base, r, terms);
  }

  // The lanes' strided shares add up to the whole dot product.
  lemma {:induction false} LanePartsSum(q: seq<real>, k: seq<real>, r: nat, n: nat)
    requires |q| == |k| && 4 * (r * n) <= |q|
    ensures Sum(LaneParts(q, k, r, n)) == Dot(q, k, 4 * (r * n))
    decreases n
  {
    if n == 0 {
      assert r * 0 == 0;
      ZeroSum(LaneParts(q, k, r, 0));
    } else {
      var m: nat := n - 1;
      StrideParts(m, r);
      LanePartsSum(q, k, r, m);
      LanePartsNext(q, k, r, m, n, m * r);
    }
  }

  lemma {:induction false} StrideParts(m: nat, r: nat)
    ensures m * r + r == (m + 1) * r && r * (m + 1) == (m + 1) * r && r * m == m * r
  {
  }

  lemma {:induction false} ZeroSum(p: seq<real>)
    requires forall i :: 0 <= i < |p| ==> p[i] == 0.0
    ensures Sum(p) == 0.0
  {
    if p != [] {
      ZeroSum(p[..|p| - 1]);
    }
  }

  // One lane's products: DPV float4 multiply-adds, then the four components.
  method LaneDot(q: seq<real>, k: seq<real>, r: nat, dpv: nat, dl: nat) returns (part: real)
    requires |q| == |k| == 4 * (r * dpv) && dl < r
    ensures part == LanePart(q, k, r, dl, dpv)
  {
    var x, y, z, w := 0.0, 0.0, 0.0, 0.0;
    MulMono(0, dpv, r);
    for j := 0 to dpv
      invariant 4 * (r * j) <= |q| && x + y + z + w == LanePart(q, k, r, dl, j)
    {
      LaneQuadFits(dl, r, j + 1);
      MulMono(j + 1, dpv, r);
      var i := dl + j * r;
      x, y := x + q[4 * i] * k[4 * i], y + q[4 * i + 1] * k[4 * i + 1];
      z, w := z + q[4 * i + 2] * k[4 * i + 2], w + q[4 * i + 3] * k[4 * i + 3];
      assert x + y + z + w == LanePart(q, k, r, dl, j) + Quad(q, k, i);
    }
    part := x + y + z + w;
  }

  // q . k on R lanes: every lane ends with the full product.
  method RowsDot(q: seq<real>, k: seq<real>, r: nat, dpv: nat) returns (part: seq<real>)
    requires |q| == |k| == 4 * (r * dpv) && PowerOfTwo(r)
    ensures |part| == r && forall dl :: 0 <= dl < r ==> part[dl] == Dot(q, k, |q|)
  {
    var parts: seq<real> := [];
    while |parts| < r
      invariant |parts| <= r && forall dl: nat :: dl < |parts| ==> parts[dl] == LanePart(q, k, r, dl, dpv)
    {
      var p := LaneDot(q, k, r, dpv, |parts|);
      parts := parts + [p];
    }
    assert parts == LaneParts(q, k, r, dpv);
    AddMaxAC();
    part := Reduce(Add, parts);
    FoldAddIsSum(parts);
    LanePartsSum(q, k, r, dpv);
  }

  // ---------- the running state ----------

  // x is coordinate `col` of the row over its first n keys.
  ghost predicate AccIs(exp: real -> real, row: seq<Key>, col: seq<real>, x: real, m: real, n: nat)
    requires n <= |row| && n <= |col|
  {
    x == Mix(exp, row, col, m, n)
  }

  // A lane's softmax state after n keys.
  ghost predicate StateIs(exp: real -> real, row: seq<Key>, negMax: real, m: real, l: real, n: nat)
    requires n <= |row|
  {
    l == Mass(exp, row, m, n) && RunningMax(row, negMax, m, n)
  }

  lemma {:induction false} StepState(exp: real -> real, row: seq<Key>, negMax: real, m: real, l: real, n: nat)
    requires IsExp(exp) && n < |row| && StateIs(exp, row, negMax, m, l, n)
    ensures var s := if row[n].live then row[n].score else negMax;
            var m' := if m > s then m else s;
            var alpha := if l > 0.0 then exp(m - m') else 0.0;
            StateIs(exp, row, negMax, m', l * alpha + (if row[n].live then exp(s - m') else 0.0), n + 1)
  {
    var s := if row[n].live then row[n].score else negMax;
    var m' := if m > s then m else s;
    RescaleOrZero(exp, row, seq(|row|, _ => 0.0), m, m', n, if l > 0.0 then exp(m - m') else 0.0);
    if m' != negMax && m' == m && !(row[n].live && row[n].score == m) {
      var t :| 0 <= t < n && row[t].live && row[t].score == m;
    }
  }

  lemma {:induction false} StepAcc(exp: real -> real, row: seq<Key>, col: seq<real>, x: real, m: real, m': real, n: nat, alpha: real)
    requires IsExp(exp) && n < |row| == |col| && AccIs(exp, row, col, x, m, n)
    requires alpha == if Mass(exp, row, m, n) > 0.0 then exp(m - m') else 0.0
    ensures AccIs(exp, row, col, x * alpha + Weight(exp, row[n], m') * col[n], m', n + 1)
  {
    RescaleOrZero(exp, row, col, m, m', n, alpha);
  }

  // acc[j] = acc[j] * alpha + p * V over a lane's slice of coordinates.
  method StepSlice(exp: real -> real, ghost row: seq<Key>, ghost mine: seq<seq<real>>, v: seq<real>, dl: nat,
                   acc: array2<real>, ghost m_i: real, ghost m_new: real, ghost n: nat, alpha: real, p: real)
    requires IsExp(exp) && n < |row| && dl < acc.Length0 && |v| == |mine| == acc.Length1
    requires forall e :: 0 <= e < |mine| ==> |mine[e]| == |row| && mine[e][n] == v[e]
    requires alpha == if Mass(exp, row, m_i, n) > 0.0 then exp(m_i - m_new) else 0.0
    requires p == Weight(exp, row[n], m_new)
    requires forall e: nat | e < |mine| :: AccIs(exp, row, mine[e], acc[dl, e], m_i, n)
    modifies acc
    ensures forall e: nat | e < |mine| :: AccIs(exp, row, mine[e], acc[dl, e], m_new, n + 1)
    ensures forall i: nat, e: nat | i != dl && i < acc.Length0 && e < acc.Length1 :: acc[i, e] == old(acc[i, e])
  {
    for e := 0 to |v|
      invariant forall i: nat | i < e :: AccIs(exp, row, mine[i], acc[dl, i], m_new, n + 1)
      invariant forall i: nat | e <= i < |mine| :: acc[dl, i] == old(acc[dl, i])
      invariant forall i: nat, j: nat | i != dl && i < acc.Length0 && j < acc.Length1 :: acc[i, j] == old(acc[i, j])
    {
      StepAcc(exp, row, mine[e], acc[dl, e], m_i, m_new, n, alpha);
      acc[dl, e] := acc[dl, e] * alpha + p * v[e];
    }
  }

  // Lane dl's slice of the accumulator holds the first n keys.
  ghost predicate LaneHolds(exp: real -> real, row: seq<Key>, cols: seq<seq<real>>, acc: array2<real>, r: nat, dl: nat, m: real, n: nat)
    requires n <= |row| && dl < acc.Length0 && forall d :: 0 <= d < |cols| ==> |cols[d]| == |row|
    reads acc
  {
    forall e: nat | e < acc.Length1 ::
      Coord(dl, r, e) < |cols| && AccIs(exp, row, cols[Coord(dl, r, e)], acc[dl, e], m, n)
  }

  // The first `lanes` of them all do.
  ghost predicate LanesHold(exp: real -> real, row: seq<Key>, cols: seq<seq<real>>, acc: array2<real>, r: nat, lanes: nat, m: real, n: nat)
    requires n <= |row| && lanes <= acc.Length0 && forall d :: 0 <= d < |cols| ==> |cols[d]| == |row|
    reads acc
  {
    forall dl: nat | dl < lanes :: LaneHolds(exp, row, cols, acc, r, dl, m, n)
  }

  // One key on one lane: its slice of the accumulator in place, and its copy of the maximum and the sum.
  method AttnRowsStep(exp: real -> real, negMax: real, part: real, live: bool, scale: real, v: seq<real>,
                      r: nat, dpv: nat, dl: nat, acc: array2<real>, m_i: real, l_i: real,
                      ghost row: seq<Key>, ghost cols: seq<seq<real>>, ghost n: nat)
    returns (m_new: real, l_new: real)
    requires IsExp(exp) && |v| == |cols| == 4 * (r * dpv) && dl < r
    requires acc.Length0 == r && acc.Length1 == 4 * dpv
    requires n < |row| && row[n] == Key(part * scale, live)
    requires forall d :: 0 <= d < |cols| ==> |cols[d]| == |row| && cols[d][n] == v[d]
    requires StateIs(exp, row, negMax, m_i, l_i, n) && LaneHolds(exp, row, cols, acc, r, dl, m_i, n)
    modifies acc
    ensures StateIs(exp, row, negMax, m_new, l_new, n + 1) && LaneHolds(exp, row, cols, acc, r, dl, m_new, n + 1)
    ensures m_new == (var s := if live then part * scale else negMax; if m_i > s then m_i else s)
    ensures forall i: nat, m', n': nat | i != dl && i < r && n' <= |row| && old(LaneHolds(exp, row, cols, acc, r, i, m', n')) ::
      LaneHolds(exp, row, cols, acc, r, i, m', n')
  {
    var s := if live then part * scale else negMax;
    m_new := if m_i > s then m_i else s;
    var alpha := if l_i > 0.0 then exp(m_i - m_new) else 0.0;
    var p := if live then exp(s - m_new) else 0.0;
    ghost var mine := seq(4 * dpv, e requires 0 <= e < 4 * dpv => cols[Coord(dl, r, e)]);
    var vMine := seq(4 * dpv, e requires 0 <= e < 4 * dpv && Coord(dl, r, e) < |v| => v[Coord(dl, r, e)]);
    StepSlice(exp, row, mine, vMine, dl, acc, m_i, m_new, n, alpha, p);
    forall e: nat | e < 4 * dpv ensures AccIs(exp, row, cols[Coord(dl, r, e)], acc[dl, e], m_new, n + 1) {
      assert AccIs(exp, row, mine[e], acc[dl, e], m_new, n + 1);
    }
    StepState(exp, row, negMax, m_i, l_i, n);
    l_new := l_i * alpha + p;
  }

  // Every lane's step on one key.
  method StepLanes(exp: real -> real, negMax: real, part: seq<real>, v: seq<real>, live: bool, scale: real,
                   r: nat, dpv: nat, acc: array2<real>, m: real, l: real,
                   ghost row: seq<Key>, ghost cols: seq<seq<real>>, ghost n: nat)
    returns (m': real, l': real)
    requires IsExp(exp) && r > 0 && |part| == r && |v| == |cols| == 4 * (r * dpv)
    requires acc.Length0 == r && acc.Length1 == 4 * dpv && n < |row|
    requires forall dl :: 0 <= dl < r ==> row[n] == Key(part[dl] * scale, live)
    requires forall d :: 0 <= d < |cols| ==> |cols[d]| == |row| && cols[d][n] == v[d]
    requires StateIs(exp, row, negMax, m, l, n) && LanesHold(exp, row, cols, acc, r, r, m, n)
    modifies acc
    ensures StateIs(exp, row, negMax, m', l', n + 1) && LanesHold(exp, row, cols, acc, r, r, m', n + 1)
  {
    ghost var s := if live then row[n].score else negMax;
    ghost var m0, n1 := if m > s then m else s, n + 1;
    m', l' := m, l;
    for dl := 0 to r
      invariant forall i: nat | dl <= i < r :: LaneHolds(exp, row, cols, acc, r, i, m, n)
      invariant forall i: nat | i < dl :: LaneHolds(exp, row, cols, acc, r, i, m0, n1)
      invariant dl > 0 ==> m' == m0 && StateIs(exp, row, negMax, m', l', n1)
    {
      assert LaneHolds(exp, row, cols, acc, r, dl, m, n);
      m', l' := AttnRowsStep(exp, negMax, part[dl], live, scale, v, r, dpv, dl, acc, m, l, row, cols, n);
    }
  }

  // One key on all R lanes, in lockstep: score by butterfly, then every lane's step.
  method FoldKey(exp: real -> real, negMax: real, q: seq<real>, k: seq<real>, v: seq<real>, live: bool, scale: real,
                 r: nat, dpv: nat, acc: array2<real>, m: real, l: real,
                 ghost row: seq<Key>, ghost cols: seq<seq<real>>, ghost n: nat)
    returns (m': real, l': real)
    requires IsExp(exp) && PowerOfTwo(r) && |q| == |k| == |v| == |cols| == 4 * (r * dpv)
    requires acc.Length0 == r && acc.Length1 == 4 * dpv
    requires n < |row| && row[n] == Key(Dot(q, k, |q|) * scale, live)
    requires forall d :: 0 <= d < |cols| ==> |cols[d]| == |row| && cols[d][n] == v[d]
    requires StateIs(exp, row, negMax, m, l, n) && LanesHold(exp, row, cols, acc, r, r, m, n)
    modifies acc
    ensures StateIs(exp, row, negMax, m', l', n + 1) && LanesHold(exp, row, cols, acc, r, r, m', n + 1)
  {
    var part := RowsDot(q, k, r, dpv);
    m', l' := StepLanes(exp, negMax, part, v, live, scale, r, dpv, acc, m, l, row, cols, n);
  }

  // ---------- a whole row ----------

  // Every score and value of a row as a kernel with its own mask sees them.
  ghost function MaskedRow(q: seq<real>, ks: seq<seq<real>>, live: seq<bool>, scale: real): (row: seq<Key>)
    requires |live| == |ks| && AllDim(ks, |q|)
    ensures |row| == |ks| && forall t :: 0 <= t < |ks| ==> row[t] == Key(Dot(q, ks[t], |q|) * scale, live[t])
  {
    seq(|ks|, t requires 0 <= t < |ks| => Key(Dot(q, ks[t], |q|) * scale, live[t]))
  }

  // The row and columns a visiting order produces.
  ghost predicate Visits(q: seq<real>, ks: seq<seq<real>>, vs: seq<seq<real>>, live: seq<bool>, scale: real,
                         visit: seq<nat>, row: seq<Key>, cols: seq<seq<real>>)
    requires AllDim(ks, |q|) && AllDim(vs, |q|) && |ks| == |vs| == |live| && Within(visit, |ks|)
  {
    |row| == |visit| && |cols| == |q| && (forall d :: 0 <= d < |q| ==> |cols[d]| == |visit|)
    && (forall i :: 0 <= i < |visit| ==> row[i] == Key(Dot(q, ks[visit[i]], |q|) * scale, live[visit[i]]))
    && forall d, i :: 0 <= d < |q| && 0 <= i < |visit| ==> cols[d][i] == vs[visit[i]][d]
  }

  // The key loop.
  method FoldKeys(exp: real -> real, negMax: real, q: seq<real>, ks: seq<seq<real>>, vs: seq<seq<real>>,
                  live: seq<bool>, scale: real, visit: seq<nat>, r: nat, dpv: nat, acc: array2<real>,
                  ghost row: seq<Key>, ghost cols: seq<seq<real>>)
    returns (m: real, l: real)
    requires IsExp(exp) && PowerOfTwo(r) && |q| == 4 * (r * dpv) && AllDim(ks, |q|) && AllDim(vs, |q|)
    requires |ks| == |vs| == |live| && Within(visit, |ks|) && Visits(q, ks, vs, live, scale, visit, row, cols)
    requires acc.Length0 == r && acc.Length1 == 4 * dpv
    requires forall dl: nat, e: nat | dl < r && e < 4 * dpv :: Coord(dl, r, e) < |cols| && acc[dl, e] == 0.0
    modifies acc
    ensures StateIs(exp, row, negMax, m, l, |visit|)
    ensures LanesHold(exp, row, cols, acc, r, r, m, |visit|)
  {
    m, l := negMax, 0.0;
    for i := 0 to |visit|
      invariant StateIs(exp, row, negMax, m, l, i)
      invariant LanesHold(exp, row, cols, acc, r, r, m, i)
    {
      var t := visit[i];
      assert |ks[t]| == |q| && |vs[t]| == |q|;
      m, l := FoldKey(exp, negMax, q, ks[t], vs[t], live[t], scale, r, dpv, acc, m, l, row, cols, i);
    }
  }

  // attn_rows_store on every lane.
  method StoreRow(vals: seq<seq<real>>, ghost want: seq<real>, r: nat, dpv: nat, o: array<real>, oOff: nat)
    requires r > 0 && |want| == 4 * (r * dpv) && |vals| == r && forall dl :: 0 <= dl < r ==> |vals[dl]| == 4 * dpv
    requires forall dl: nat, e: nat | dl < r && e < 4 * dpv ::
      Coord(dl, r, e) < |want| && vals[dl][e] == want[Coord(dl, r, e)]
    requires oOff + |want| <= o.Length
    modifies o
    ensures forall d: nat | d < |want| :: o[oOff + d] == want[d]
    ensures forall i :: 0 <= i < o.Length && !(oOff <= i < oOff + |want|) ==> o[i] == old(o[i])
  {
    ghost var written: set<nat> := {};
    for dl := 0 to r
      invariant forall d | d in written :: d < |want| && o[oOff + d] == want[d]
      invariant forall i :: 0 <= i < o.Length && !(oOff <= i < oOff + |want|) ==> o[i] == old(o[i])
      invariant forall i: nat, e: nat | i < dl && e < 4 * dpv :: Coord(i, r, e) in written
    {
      for e := 0 to 4 * dpv
        invariant forall d | d in written :: d < |want| && o[oOff + d] == want[d]
        invariant forall i :: 0 <= i < o.Length && !(oOff <= i < oOff + |want|) ==> o[i] == old(o[i])
        invariant forall i: nat, j: nat | i < dl && j < 4 * dpv :: Coord(i, r, j) in written
        invariant forall j: nat | j < e :: Coord(dl, r, j) in written
      {
        var c := Coord(dl, r, e);
        o[oOff + c] := vals[dl][e];
        written := written + {c};
      }
    }
    forall d: nat | d < |want| ensures o[oOff + d] == want[d] {
      var dl, e := CoordOwner(d, r, dpv);
      assert Coord(dl, r, e) in written;
    }
  }

  // The plain masked attention of one row, converted for output.
  ghost function PlainRow(exp: real -> real, store: real -> real, q: seq<real>, ks: seq<seq<real>>,
                          vs: seq<seq<real>>, live: seq<bool>, scale: real): (out: seq<real>)
    requires AllDim(ks, |q|) && AllDim(vs, |q|) && |ks| == |vs| == |live|
    ensures |out| == |q|
    ensures forall d: nat :: d < |q| ==>
      out[d] == store(Reference(exp, MaskedRow(q, ks, live, scale), Column(vs, |q|, d)))
  {
    seq(|q|, d requires 0 <= d < |q| => store(Reference(exp, MaskedRow(q, ks, live, scale), Column(vs, |q|, d))))
  }

  // Its coordinates in visiting order.
  ghost function VisitedCols(vs: seq<seq<real>>, dim: nat, visit: seq<nat>): (cols: seq<seq<real>>)
    requires AllDim(vs, dim) && Within(visit, |vs|)
    ensures |cols| == dim && forall d: nat :: d < dim ==> cols[d] == Visited(Column(vs, dim, d), visit)
  {
    seq(dim, d requires 0 <= d < dim => Visited(Column(vs, dim, d), visit))
  }

  // The row body: fold in the keys of `visit` one after another, then scale and store. The stored row is the
  // plain masked attention whatever the order, as long as every live key is visited once.
  method AttnRow(exp: real -> real, negMax: real, store: real -> real, q: seq<real>, ks: seq<seq<real>>,
                 vs: seq<seq<real>>, live: seq<bool>, scale: real, visit: seq<nat>, r: nat, dpv: nat,
                 o: array<real>, oOff: nat)
    returns (m: real, l: real)
    requires IsExp(exp) && PowerOfTwo(r) && |q| == 4 * (r * dpv) && AllDim(ks, |q|) && AllDim(vs, |q|)
    requires |ks| == |vs| == |live| && Within(visit, |ks|) && Distinct(visit)
    requires forall t :: 0 <= t < |ks| && live[t] ==> t in visit
    requires oOff + |q| <= o.Length
    modifies o
    ensures forall d: nat | d < |q| :: o[oOff + d] == PlainRow(exp, store, q, ks, vs, live, scale)[d]
    ensures forall i :: 0 <= i < o.Length && !(oOff <= i < oOff + |q|) ==> o[i] == old(o[i])
    ensures StateIs(exp, Visited(MaskedRow(q, ks, live, scale), visit), negMax, m, l, |visit|)
  {
    ghost var row := Visited(MaskedRow(q, ks, live, scale), visit);
    ghost var cols := VisitedCols(vs, |q|, visit);
    ghost var want := PlainRow(exp, store, q, ks, vs, live, scale);
    var acc := new real[r, 4 * dpv]((_, _) => 0.0);
    forall dl: nat, e: nat | dl < r && e < 4 * dpv ensures Coord(dl, r, e) < |cols| {
      CoordFits(dl, r, dpv, e);
    }
    m, l := FoldKeys(exp, negMax, q, ks, vs, live, scale, visit, r, dpv, acc, row, cols);
    var slices := LaneSlices(acc, exp, row, cols, r, m, |visit|);
    AllFinish(exp, store, q, ks, vs, live, scale, visit, cols, r, dpv, slices, m, l);
    assert forall dl :: 0 <= dl < r ==> |slices[dl]| == 4 * dpv;
    StoreRow(Outputs(store, slices, if l > 0.0 then 1.0 / l else 0.0), want, r, dpv, o, oOff);
  }

  // The lanes' registers hold the first n keys.
  ghost predicate SlicesHold(exp: real -> real, row: seq<Key>, cols: seq<seq<real>>, slices: seq<seq<real>>, r: nat, m: real, n: nat)
    requires n <= |row| && forall d :: 0 <= d < |cols| ==> |cols[d]| == |row|
  {
    forall dl: nat, e: nat | dl < |slices| && e < |slices[dl]| ::
      Coord(dl, r, e) < |cols| && AccIs(exp, row, cols[Coord(dl, r, e)], slices[dl][e], m, n)
  }

  // Each lane's accumulator registers.
  method LaneSlices(acc: array2<real>, ghost exp: real -> real, ghost row: seq<Key>, ghost cols: seq<seq<real>>,
                    ghost r: nat, ghost m: real, ghost n: nat) returns (s: seq<seq<real>>)
    requires n <= |row| && forall d :: 0 <= d < |cols| ==> |cols[d]| == |row|
    requires LanesHold(exp, row, cols, acc, r, acc.Length0, m, n)
    ensures |s| == acc.Length0 && forall dl :: 0 <= dl < |s| ==> |s[dl]| == acc.Length1
    ensures forall dl: nat, e: nat | dl < acc.Length0 && e < acc.Length1 :: s[dl][e] == acc[dl, e]
    ensures SlicesHold(exp, row, cols, s, r, m, n)
  {
    s := [];
    while |s| < acc.Length0
      invariant |s| <= acc.Length0 && forall dl :: 0 <= dl < |s| ==> |s[dl]| == acc.Length1
      invariant forall dl: nat, e: nat | dl < |s| && e < acc.Length1 :: s[dl][e] == acc[dl, e]
    {
      var dl := |s|;
      s := s + [seq(acc.Length1, e requires 0 <= e < acc.Length1 reads acc => acc[dl, e])];
    }
    forall dl: nat, e: nat | dl < |s| && e < |s[dl]|
      ensures Coord(dl, r, e) < |cols| && AccIs(exp, row, cols[Coord(dl, r, e)], s[dl][e], m, n)
    {
      assert LaneHolds(exp, row, cols, acc, r, dl, m, n);
    }
  }

  // acc[j] * inv_l on one lane, converted for output; then on every lane.
  function OutputSlice(store: real -> real, slice: seq<real>, inv_l: real): (vals: seq<real>)
    ensures |vals| == |slice| && forall e: nat :: e < |vals| ==> vals[e] == store(Scaled(slice[e], inv_l))
  {
    seq(|slice|, e requires 0 <= e < |slice| => store(Scaled(slice[e], inv_l)))
  }

  function Outputs(store: real -> real, slices: seq<seq<real>>, inv_l: real): (vals: seq<seq<real>>)
    ensures |vals| == |slices| && forall dl: nat :: dl < |vals| ==> vals[dl] == OutputSlice(store, slices[dl], inv_l)
  {
    seq(|slices|, dl requires 0 <= dl < |slices| => OutputSlice(store, slices[dl], inv_l))
  }

  lemma {:induction false} AllFinish(exp: real -> real, store: real -> real, q: seq<real>, ks: seq<seq<real>>, vs: seq<seq<real>>,
                  live: seq<bool>, scale: real, visit: seq<nat>, cols: seq<seq<real>>, r: nat, dpv: nat,
                  slices: seq<seq<real>>, m: real, l: real)
    requires IsExp(exp) && AllDim(ks, |q|) && AllDim(vs, |q|)
    requires |ks| == |vs| == |live| && Within(visit, |ks|) && Distinct(visit)
    requires forall t :: 0 <= t < |ks| && live[t] ==> t in visit
    requires |slices| == r && (forall dl :: 0 <= dl < r ==> |slices[dl]| == 4 * dpv) && cols == VisitedCols(vs, |q|, visit)
    requires l == Mass(exp, Visited(MaskedRow(q, ks, live, scale), visit), m, |visit|)
    requires SlicesHold(exp, Visited(MaskedRow(q, ks, live, scale), visit), cols, slices, r, m, |visit|)
    ensures forall dl: nat, e: nat | dl < r && e < 4 * dpv :: Coord(dl, r, e) < |cols|
    ensures var vals := Outputs(store, slices, if l > 0.0 then 1.0 / l else 0.0);
            forall dl: nat, e: nat | dl < r && e < 4 * dpv ::
              vals[dl][e] == PlainRow(exp, store, q, ks, vs, live, scale)[Coord(dl, r, e)]
  {
    var inv_l := if l > 0.0 then 1.0 / l else 0.0;
    var vals := Outputs(store, slices, inv_l);
    var want := PlainRow(exp, store, q, ks, vs, live, scale);
    forall dl: nat, e: nat | dl < r && e < 4 * dpv ensures vals[dl][e] == want[Coord(dl, r, e)] {
      var d := Coord(dl, r, e);
      FinishAt(exp, store, q, ks, vs, live, scale, visit, cols, d, slices[dl][e], m, l, inv_l);
      assert vals[dl] == OutputSlice(store, slices[dl], inv_l);
      assert vals[dl][e] == store(Scaled(slices[dl][e], inv_l));
    }
  }

  lemma {:induction false} FinishAt(exp: real -> real, store: real -> real, q: seq<real>, ks: seq<seq<real>>, vs: seq<seq<real>>,
                 live: seq<bool>, scale: real, visit: seq<nat>, cols: seq<seq<real>>, d: nat, x: real, m: real, l: real,
                 inv_l: real)
    requires IsExp(exp) && AllDim(ks, |q|) && AllDim(vs, |q|)
    requires |ks| == |vs| == |live| && Within(visit, |ks|) && Distinct(visit) && d < |q|
    requires forall t :: 0 <= t < |ks| && live[t] ==> t in visit
    requires cols == VisitedCols(vs, |q|, visit)
    requires AccIs(exp, Visited(MaskedRow(q, ks, live, scale), visit), cols[d], x, m, |visit|)
    requires l == Mass(exp, Visited(MaskedRow(q, ks, live, scale), visit), m, |visit|)
    requires inv_l == if l > 0.0 then 1.0 / l else 0.0
    ensures store(Scaled(x, inv_l)) == PlainRow(exp, store, q, ks, vs, live, scale)[d]
  {
    var row, col := MaskedRow(q, ks, live, scale), Column(vs, |q|, d);
    Finish(exp, row, col, visit, x, m, l, inv_l);
  }

  lemma {:induction false} Finish(exp: real -> real, full: seq<Key>, col: seq<real>, visit: seq<nat>, x: real, m: real, l: real, inv_l: real)
    requires IsExp(exp) && |col| == |full| && Within(visit, |full|) && Distinct(visit)
    requires forall t :: 0 <= t < |full| && full[t].live ==> t in visit
    requires AccIs(exp, Visited(full, visit), Visited(col, visit), x, m, |visit|)
    requires l == Mass(exp, Visited(full, visit), m, |visit|)
    requires inv_l == if l > 0.0 then 1.0 / l else 0.0
    ensures Scaled(x, inv_l) == Reference(exp, full, col)
  {
    NormaliseAnyShift(exp, Visited(full, visit), Visited(col, visit), m);
    VisitOrderIrrelevant(exp, full, col, visit);
    ReferenceIsAttend(exp, full, col);
  }
}
