// What every step of the lanes of an attention threadgroup keeps, in every interleaving: each lane holds what its place
// in the body says, all lanes are between the same two barriers, and a complete run leaves the plain masked attention.
module AttnLaneRuns {
  import opened Common
  import opened OnlineSoftmax
  import opened Layout
  import opened Lanes
  import opened AttnMask
  import opened AttnFa2
  import opened AttnLanes

  // ---------- what a lane holds ----------

  // Accumulator coordinate d of row l holds the row's first n keys against the shift m.
  ghost predicate AccAt(c: Group, mem: Mem, l: nat, d: nat, m: real, n: nat)
    requires c.Valid() && l < |c.g.q| && d < c.Dim() && n <= c.Tkv()
  {
    AccIs(c.w, c.exp, Read(mem, OaccAt(l, d)), l, d, m, n)
  }

  // Score tk of row l in block kb is the dot product over the first `dims` coordinates ...
  ghost predicate RawAt(c: Group, mem: Mem, l: nat, kb: nat, tk: nat, dims: nat)
    requires c.Valid() && l < |c.g.q| && tk < c.NK(kb) && dims <= c.Dim()
  {
    ScoreIs(c.g, Read(mem, ScoreAt(l, tk)), l, c.T0(kb) + tk, dims)
  }

  // ... or the scaled score, of a key the mask keeps ...
  ghost predicate LiveAt(c: Group, mem: Mem, l: nat, kb: nat, tk: nat)
    requires c.Valid() && l < |c.g.q| && tk < c.NK(kb)
  {
    Keep(c.g.a, c.TQ(l), c.T0(kb) + tk) ==> Read(mem, ScoreAt(l, tk)) == c.w.rows[l][c.T0(kb) + tk].score
  }

  // ... or the weight against the shift m.
  ghost predicate WeightAt(c: Group, mem: Mem, l: nat, kb: nat, tk: nat, m: real)
    requires c.Valid() && l < |c.g.q| && tk < c.NK(kb)
  {
    WeightsAre(c.w, c.exp, Read(mem, ScoreAt(l, tk)), l, c.T0(kb) + tk, m)
  }

  // The same over a range.
  ghost predicate AccZone(c: Group, mem: Mem, l: nat, lo: nat, hi: nat, m: real, n: nat)
    requires c.Valid() && l < |c.g.q| && hi <= c.Dim() && n <= c.Tkv()
  {
    forall d: nat | lo <= d < hi :: AccAt(c, mem, l, d, m, n)
  }

  ghost predicate RawZone(c: Group, mem: Mem, l: nat, kb: nat, lo: nat, hi: nat, dims: nat)
    requires c.Valid() && l < |c.g.q| && hi <= c.NK(kb) && dims <= c.Dim()
  {
    forall tk: nat | lo <= tk < hi :: RawAt(c, mem, l, kb, tk, dims)
  }

  ghost predicate LiveZone(c: Group, mem: Mem, l: nat, kb: nat, lo: nat, hi: nat)
    requires c.Valid() && l < |c.g.q| && hi <= c.NK(kb)
  {
    forall tk: nat | lo <= tk < hi :: LiveAt(c, mem, l, kb, tk)
  }

  ghost predicate WeightZone(c: Group, mem: Mem, l: nat, kb: nat, lo: nat, hi: nat, m: real)
    requires c.Valid() && l < |c.g.q| && hi <= c.NK(kb)
  {
    forall tk: nat | lo <= tk < hi :: WeightAt(c, mem, l, kb, tk, m)
  }

  ghost function RowMass(c: Group, l: nat, m: real, n: nat): real
    requires c.Valid() && l < |c.g.q| && n <= c.Tkv()
  {
    Mass(c.exp, c.w.rows[l], m, n)
  }

  // What output coordinate d of l's row must become.
  ghost function Final(c: Group, l: nat, d: nat): real
    requires c.Valid() && l < |c.g.q| && d < c.Dim()
  {
    c.store(Attend(c.exp, c.w.rows[l], c.w.cols[d]))
  }

  ghost predicate OutZone(c: Group, mem: Mem, l: nat, hi: nat)
    requires c.Valid() && l < |c.g.q| && hi <= c.Dim()
  {
    forall d: nat | d < hi :: Read(mem, OutAt(c.b, c.h, c.g.q0 + l, d)) == Final(c, l, d)
  }

  ghost predicate Cleared(mem: Mem, r: nat, tk: nat) { Read(mem, ScoreAt(r, tk)) == 0.0 }

  // l's share of the loop that zeroes the scores, up to iteration i.
  ghost predicate ClearedBy(c: Group, mem: Mem, l: nat, i: nat)
    requires c.Valid()
  {
    forall r: nat, tk: nat {:trigger Cleared(mem, r, tk)}
      | r < c.br && tk < c.bc && Turn(c.tptg, l, r, c.bc, tk) && Cell(r, c.bc, tk) < i :: Cleared(mem, r, tk)
  }

  ghost predicate StagedIs(c: Group, mem: Mem, side: Side, kb: nat, d0: nat, tk: nat, d: nat) {
    Read(mem, StagedAt(side, tk, d)) == At(Source(c, side), c.T0(kb) + tk, d0 + d)
  }

  // l's share of the loop that stages a slice of K or V, up to iteration i.
  ghost predicate LoadedBy(c: Group, mem: Mem, side: Side, kb: nat, d0: nat, l: nat, i: nat)
    requires c.Valid()
  {
    forall tk: nat, d: nat {:trigger StagedIs(c, mem, side, kb, d0, tk, d)}
      | tk < c.NK(kb) && d < D_TILE && Turn(c.tptg, l, tk, D_TILE, d) && Cell(tk, D_TILE, d) < i ::
      StagedIs(c, mem, side, kb, d0, tk, d)
  }

  ghost predicate AllLoaded(c: Group, mem: Mem, side: Side, kb: nat, d0: nat)
    requires c.Valid()
  {
    forall tk: nat, d: nat | tk < c.NK(kb) && d < D_TILE :: StagedIs(c, mem, side, kb, d0, tk, d)
  }

  // ---------- by place ----------

  ghost predicate Runs(c: Group) { c.g.q0 < c.g.a.tq && c.Tkv() > 0 }

  ghost predicate InBlock(c: Group, kb: nat)
    requires c.bc > 0
  {
    Runs(c) && kb < c.Blocks() && !c.Skipped(kb)
  }

  ghost predicate Slice(c: Group, d0: nat) { d0 % D_TILE == 0 && d0 + D_TILE <= c.Dim() }

  // Between blocks: sum and accumulator hold the first n keys.
  ghost predicate Holds(c: Group, mem: Mem, l: nat, rg: Regs, n: nat)
    requires c.Valid() && l < |c.g.q| && n <= c.Tkv()
  {
    rg.l == RowMass(c, l, rg.m, n) && AccZone(c, mem, l, 0, c.Dim(), rg.m, n)
  }

  // After the softmax of block kb: the sum includes the block, and the scores are its weights.
  ghost predicate Weighed(c: Group, mem: Mem, l: nat, rg: Regs, kb: nat)
    requires c.Valid() && l < |c.g.q|
  {
    rg.l == RowMass(c, l, rg.m, c.T0(kb) + c.NK(kb)) && WeightZone(c, mem, l, kb, 0, c.NK(kb), rg.m)
  }

  // How many keys coordinate d holds while the block is added slice by slice: all of the block below d0, then key tk as
  // far as coordinate d0 + e.
  ghost function KeysIn(c: Group, kb: nat, d0: nat, tk: nat, e: nat, d: nat): (n: nat)
    requires tk < c.NK(kb) || (tk == c.NK(kb) && e == 0)
    ensures n <= c.Tkv()
  {
    if d < d0 then c.T0(kb) + c.NK(kb)
    else if d < d0 + e then c.T0(kb) + tk + 1
    else if d < d0 + D_TILE then c.T0(kb) + tk
    else c.T0(kb)
  }

  ghost predicate Stairs(c: Group, mem: Mem, l: nat, m: real, kb: nat, d0: nat, tk: nat, e: nat)
    requires c.Valid() && l < |c.g.q| && (tk < c.NK(kb) || (tk == c.NK(kb) && e == 0))
  {
    forall d: nat | d < c.Dim() :: AccAt(c, mem, l, d, m, KeysIn(c, kb, d0, tk, e, d))
  }

  ghost predicate ScoreOk(c: Group, mem: Mem, l: nat, rg: Regs, kb: nat, d0: nat, tk: nat, d: nat)
    requires c.Valid() && l < |c.g.q| && Slice(c, d0)
  {
    tk <= c.NK(kb) && d <= D_TILE && AllLoaded(c, mem, K, kb, d0) && Holds(c, mem, l, rg, c.T0(kb))
    && RawZone(c, mem, l, kb, 0, tk, d0 + D_TILE) && RawZone(c, mem, l, kb, tk, c.NK(kb), d0)
    && (tk < c.NK(kb) ==> var j := c.T0(kb) + tk;
                          Dot(c.g.q[l], c.g.k[j], d0) + rg.s == Dot(c.g.q[l], c.g.k[j], d0 + d))
    && (tk == c.NK(kb) ==> d == 0)
  }

  ghost predicate MaskOk(c: Group, mem: Mem, l: nat, rg: Regs, kb: nat, tk: nat)
    requires c.Valid() && l < |c.g.q|
  {
    tk <= c.NK(kb) && Holds(c, mem, l, rg, c.T0(kb))
    && LiveZone(c, mem, l, kb, 0, tk) && RawZone(c, mem, l, kb, tk, c.NK(kb), c.Dim())
  }

  ghost predicate WeighOk(c: Group, mem: Mem, l: nat, rg: Regs, kb: nat, tk: nat)
    requires c.Valid() && l < |c.g.q|
  {
    tk <= c.NK(kb) && Holds(c, mem, l, rg, c.T0(kb))
    && rg.alpha == (if rg.l > 0.0 then c.exp(rg.m - rg.mNew) else 0.0)
    && RowMass(c, l, rg.mNew, c.T0(kb)) + rg.mass == RowMass(c, l, rg.mNew, c.T0(kb) + tk)
    && WeightZone(c, mem, l, kb, 0, tk, rg.mNew) && LiveZone(c, mem, l, kb, tk, c.NK(kb))
  }

  ghost predicate ScaleOk(c: Group, mem: Mem, l: nat, rg: Regs, kb: nat, d: nat)
    requires c.Valid() && l < |c.g.q|
  {
    d <= c.Dim() && rg.l == RowMass(c, l, rg.m, c.T0(kb))
    && rg.alpha == (if rg.l > 0.0 then c.exp(rg.m - rg.mNew) else 0.0)
    && RowMass(c, l, rg.mNew, c.T0(kb)) + rg.mass == RowMass(c, l, rg.mNew, c.T0(kb) + c.NK(kb))
    && AccZone(c, mem, l, 0, d, rg.mNew, c.T0(kb)) && AccZone(c, mem, l, d, c.Dim(), rg.m, c.T0(kb))
    && WeightZone(c, mem, l, kb, 0, c.NK(kb), rg.mNew)
  }

  ghost predicate MulOk(c: Group, mem: Mem, l: nat, rg: Regs, kb: nat, d0: nat, tk: nat, d: nat)
    requires c.Valid() && l < |c.g.q|
  {
    (tk < c.NK(kb) || (tk == c.NK(kb) && d == 0)) && d <= D_TILE && AllLoaded(c, mem, V, kb, d0)
    && Weighed(c, mem, l, rg, kb) && Stairs(c, mem, l, rg.m, kb, d0, tk, d)
  }

  // What lane l's registers and the words of its phase hold at its place.
  ghost predicate LaneOk(c: Group, l: nat, at: Place, rg: Regs, mem: Mem)
    requires c.Valid()
  {
    var row := l < |c.g.q|;
    match at
    case Begin => true
    case Blank(d) => c.g.q0 < c.g.a.tq && c.Tkv() == 0 && row && d <= c.Dim() && OutZone(c, mem, l, d)
    case Gone => !Runs(c) && (row ==> OutZone(c, mem, l, c.Dim()))
    case Zero(d) =>
      Runs(c) && l < c.br && d <= c.Dim() && rg.l == 0.0 && forall e: nat | e < d :: Read(mem, OaccAt(l, e)) == 0.0
    case AtZero =>
      Runs(c) && rg.l == 0.0 && (l < c.br ==> forall e: nat | e < c.Dim() :: Read(mem, OaccAt(l, e)) == 0.0)
    case Head(kb) => Runs(c) && kb <= c.Blocks() && (row ==> Holds(c, mem, l, rg, c.T0(kb)))
    case Clear(kb, i) =>
      InBlock(c, kb) && (row ==> Holds(c, mem, l, rg, c.T0(kb))) && i % c.tptg == l && ClearedBy(c, mem, l, i)
    case AtClear(kb) =>
      InBlock(c, kb) && (row ==> Holds(c, mem, l, rg, c.T0(kb))) && ClearedBy(c, mem, l, c.br * c.bc)
    case Load(side, kb, d0, i) =>
      InBlock(c, kb) && Slice(c, d0) && i % c.tptg == l && LoadedBy(c, mem, side, kb, d0, l, i) && (row ==> SideOk(c, mem, l, rg, side, kb, d0))
    case AtLoad(side, kb, d0) =>
      InBlock(c, kb) && Slice(c, d0) && LoadedBy(c, mem, side, kb, d0, l, c.NK(kb) * D_TILE)
      && (row ==> SideOk(c, mem, l, rg, side, kb, d0))
    case Score(kb, d0, tk, d) => InBlock(c, kb) && Slice(c, d0) && row && ScoreOk(c, mem, l, rg, kb, d0, tk, d)
    case AtScore(kb, d0) =>
      InBlock(c, kb) && Slice(c, d0) && (row ==> SideOk(c, mem, l, rg, K, kb, d0 + D_TILE))
    case Mask(kb, tk) => InBlock(c, kb) && row && MaskOk(c, mem, l, rg, kb, tk)
    case Weigh(kb, tk) => InBlock(c, kb) && row && WeighOk(c, mem, l, rg, kb, tk)
    case Scale(kb, d) => InBlock(c, kb) && row && ScaleOk(c, mem, l, rg, kb, d)
    case AtSoft(kb) => InBlock(c, kb) && (row ==> SideOk(c, mem, l, rg, V, kb, 0))
    case Pick(kb, d0, tk) => InBlock(c, kb) && Slice(c, d0) && row && MulOk(c, mem, l, rg, kb, d0, tk, 0)
    case Mul(kb, d0, tk, d) =>
      InBlock(c, kb) && Slice(c, d0) && row && tk < c.NK(kb) && MulOk(c, mem, l, rg, kb, d0, tk, d)
      && WeightsAre(c.w, c.exp, rg.p, l, c.T0(kb) + tk, rg.m)
    case AtMul(kb, d0) => InBlock(c, kb) && Slice(c, d0) && (row ==> SideOk(c, mem, l, rg, V, kb, d0 + D_TILE))
    case Store(d) => Runs(c) && row && d <= c.Dim() && Holds(c, mem, l, rg, c.Tkv()) && OutZone(c, mem, l, d)
    case Done => Runs(c) && (row ==> OutZone(c, mem, l, c.Dim()))
  }

  // A lane's row between two slices of K, or of V.
  ghost predicate SideOk(c: Group, mem: Mem, l: nat, rg: Regs, side: Side, kb: nat, d0: nat)
    requires c.Valid() && l < |c.g.q| && d0 <= c.Dim()
  {
    if side == K then Holds(c, mem, l, rg, c.T0(kb)) && RawZone(c, mem, l, kb, 0, c.NK(kb), d0)
    else Weighed(c, mem, l, rg, kb) && Stairs(c, mem, l, rg.m, kb, d0, 0, 0)
  }

  // ---------- words of other lanes ----------

  ghost predicate Agree(c: Group, ph: Phase, l: nat, mem: Mem, mem': Mem)
    requires c.tptg > 0
  {
    forall x {:trigger Read(mem', x)} :: Touches(c, ph, l, x) ==> Read(mem, x) == Read(mem', x)
  }

  // Words [lo, hi) of l's row of the accumulator, or of the scores, are the same in both memories.
  ghost predicate SameAcc(l: nat, mem: Mem, mem': Mem, lo: nat, hi: nat) {
    forall d: nat {:trigger Read(mem', OaccAt(l, d))} | lo <= d < hi :: Read(mem, OaccAt(l, d)) == Read(mem', OaccAt(l, d))
  }

  ghost predicate SameScores(l: nat, mem: Mem, mem': Mem, lo: nat, hi: nat) {
    forall tk: nat {:trigger Read(mem', ScoreAt(l, tk))} | lo <= tk < hi :: Read(mem, ScoreAt(l, tk)) == Read(mem', ScoreAt(l, tk))
  }

  ghost predicate SameRow(c: Group, l: nat, mem: Mem, mem': Mem) {
    SameAcc(l, mem, mem', 0, c.Dim()) && SameScores(l, mem, mem', 0, c.bc)
  }

  lemma {:induction false} AgreeRow(c: Group, ph: Phase, l: nat, mem: Mem, mem': Mem)
    requires c.Valid() && Agree(c, ph, l, mem, mem')
    ensures SameAcc(l, mem, mem', 0, c.Dim())
    ensures ph.Loop? || SameRow(c, l, mem, mem')
  {
    forall d: nat ensures Read(mem, OaccAt(l, d)) == Read(mem', OaccAt(l, d)) {
      assert Touches(c, ph, l, OaccAt(l, d));
    }
    if !ph.Loop? {
      forall tk: nat ensures Read(mem, ScoreAt(l, tk)) == Read(mem', ScoreAt(l, tk)) {
        assert Touches(c, ph, l, ScoreAt(l, tk));
      }
    }
  }

  lemma {:induction false} FrameAcc(c: Group, l: nat, mem: Mem, mem': Mem, lo: nat, hi: nat, m: real, n: nat)
    requires c.Valid() && l < |c.g.q| && hi <= c.Dim() && n <= c.Tkv() && AccZone(c, mem, l, lo, hi, m, n)
    requires SameAcc(l, mem, mem', lo, hi)
    ensures AccZone(c, mem', l, lo, hi, m, n)
  {
    forall d: nat | lo <= d < hi ensures AccAt(c, mem', l, d, m, n) {
      assert AccAt(c, mem, l, d, m, n);
    }
  }

  lemma {:induction false} FrameRaw(c: Group, l: nat, mem: Mem, mem': Mem, kb: nat, lo: nat, hi: nat, dims: nat)
    requires c.Valid() && l < |c.g.q| && hi <= c.NK(kb) && dims <= c.Dim() && RawZone(c, mem, l, kb, lo, hi, dims)
    requires SameScores(l, mem, mem', lo, hi)
    ensures RawZone(c, mem', l, kb, lo, hi, dims)
  {
    forall tk: nat | lo <= tk < hi ensures RawAt(c, mem', l, kb, tk, dims) {
      assert RawAt(c, mem, l, kb, tk, dims);
    }
  }

  lemma {:induction false} FrameLive(c: Group, l: nat, mem: Mem, mem': Mem, kb: nat, lo: nat, hi: nat)
    requires c.Valid() && l < |c.g.q| && hi <= c.NK(kb) && LiveZone(c, mem, l, kb, lo, hi)
    requires SameScores(l, mem, mem', lo, hi)
    ensures LiveZone(c, mem', l, kb, lo, hi)
  {
    forall tk: nat | lo <= tk < hi ensures LiveAt(c, mem', l, kb, tk) {
      assert LiveAt(c, mem, l, kb, tk);
    }
  }

  lemma {:induction false} FrameWeight(c: Group, l: nat, mem: Mem, mem': Mem, kb: nat, lo: nat, hi: nat, m: real)
    requires c.Valid() && l < |c.g.q| && hi <= c.NK(kb) && WeightZone(c, mem, l, kb, lo, hi, m)
    requires SameScores(l, mem, mem', lo, hi)
    ensures WeightZone(c, mem', l, kb, lo, hi, m)
  {
    forall tk: nat | lo <= tk < hi ensures WeightAt(c, mem', l, kb, tk, m) {
      assert WeightAt(c, mem, l, kb, tk, m);
    }
  }

  lemma {:induction false} FrameStairs(c: Group, l: nat, mem: Mem, mem': Mem, m: real, kb: nat, d0: nat, tk: nat, e: nat)
    requires c.Valid() && l < |c.g.q| && (tk < c.NK(kb) || (tk == c.NK(kb) && e == 0))
    requires Stairs(c, mem, l, m, kb, d0, tk, e) && SameAcc(l, mem, mem', 0, c.Dim())
    ensures Stairs(c, mem', l, m, kb, d0, tk, e)
  {
    forall d: nat | d < c.Dim() ensures AccAt(c, mem', l, d, m, KeysIn(c, kb, d0, tk, e, d)) {
      assert AccAt(c, mem, l, d, m, KeysIn(c, kb, d0, tk, e, d));
    }
  }

  lemma {:induction false} FrameSide(c: Group, l: nat, mem: Mem, mem': Mem, rg: Regs, side: Side, kb: nat, d0: nat)
    requires c.Valid() && l < |c.g.q| && d0 <= c.Dim() && SameRow(c, l, mem, mem') && SideOk(c, mem, l, rg, side, kb, d0)
    ensures SideOk(c, mem', l, rg, side, kb, d0)
  {
    if side == K {
      FrameAcc(c, l, mem, mem', 0, c.Dim(), rg.m, c.T0(kb));
      FrameRaw(c, l, mem, mem', kb, 0, c.NK(kb), d0);
    } else {
      FrameWeight(c, l, mem, mem', kb, 0, c.NK(kb), rg.m);
      FrameStairs(c, l, mem, mem', rg.m, kb, d0, 0, 0);
    }
  }

  lemma {:induction false} FrameShared(c: Group, ph: Phase, l: nat, mem: Mem, mem': Mem, side: Side, kb: nat, d0: nat)
    requires c.Valid() && Agree(c, ph, l, mem, mem') && AllLoaded(c, mem, side, kb, d0)
    requires ph == if side == K then Scoring(kb, d0) else Adding(kb, d0)
    ensures AllLoaded(c, mem', side, kb, d0)
  {
    forall tk: nat, d: nat | tk < c.NK(kb) && d < D_TILE ensures StagedIs(c, mem', side, kb, d0, tk, d) {
      assert StagedIs(c, mem, side, kb, d0, tk, d) && Touches(c, ph, l, StagedAt(side, tk, d));
    }
  }

  lemma {:induction false} FrameLoaded(c: Group, ph: Phase, l: nat, mem: Mem, mem': Mem, side: Side, kb: nat, d0: nat, i: nat)
    requires c.Valid() && ph == Loading(side, kb, d0) && Agree(c, ph, l, mem, mem') && LoadedBy(c, mem, side, kb, d0, l, i)
    ensures LoadedBy(c, mem', side, kb, d0, l, i)
  {
    forall tk: nat, d: nat | tk < c.NK(kb) && d < D_TILE && Turn(c.tptg, l, tk, D_TILE, d) && Cell(tk, D_TILE, d) < i
      ensures StagedIs(c, mem', side, kb, d0, tk, d)
    {
      assert StagedIs(c, mem, side, kb, d0, tk, d) && Touches(c, ph, l, StagedAt(side, tk, d));
    }
  }

  lemma {:induction false} FrameScore(c: Group, ph: Phase, l: nat, mem: Mem, mem': Mem, rg: Regs, kb: nat, d0: nat, tk: nat, d: nat)
    requires c.Valid() && l < |c.g.q| && Slice(c, d0) && ScoreOk(c, mem, l, rg, kb, d0, tk, d)
    requires ph == Scoring(kb, d0) && Agree(c, ph, l, mem, mem') && SameRow(c, l, mem, mem')
    ensures ScoreOk(c, mem', l, rg, kb, d0, tk, d)
  {
    FrameShared(c, ph, l, mem, mem', K, kb, d0);
    FrameAcc(c, l, mem, mem', 0, c.Dim(), rg.m, c.T0(kb));
    FrameRaw(c, l, mem, mem', kb, 0, tk, d0 + D_TILE);
    FrameRaw(c, l, mem, mem', kb, tk, c.NK(kb), d0);
  }

  lemma {:induction false} FrameMul(c: Group, ph: Phase, l: nat, mem: Mem, mem': Mem, rg: Regs, kb: nat, d0: nat, tk: nat, d: nat)
    requires c.Valid() && l < |c.g.q| && MulOk(c, mem, l, rg, kb, d0, tk, d)
    requires ph == Adding(kb, d0) && Agree(c, ph, l, mem, mem') && SameRow(c, l, mem, mem')
    ensures MulOk(c, mem', l, rg, kb, d0, tk, d)
  {
    FrameShared(c, ph, l, mem, mem', V, kb, d0);
    FrameWeight(c, l, mem, mem', kb, 0, c.NK(kb), rg.m);
    FrameStairs(c, l, mem, mem', rg.m, kb, d0, tk, d);
  }

  lemma {:induction false} FrameFirst(c: Group, l: nat, at: Place, rg: Regs, mem: Mem, mem': Mem)
    requires c.Valid() && LaneOk(c, l, at, rg, mem) && Agree(c, PhaseOf(c, at), l, mem, mem') && PhaseOf(c, at).First?
    ensures LaneOk(c, l, at, rg, mem')
  {
  }

  lemma {:induction false} FrameCleared(c: Group, ph: Phase, l: nat, mem: Mem, mem': Mem, i: nat)
    requires c.Valid() && ph.Loop? && Agree(c, ph, l, mem, mem') && ClearedBy(c, mem, l, i)
    ensures ClearedBy(c, mem', l, i)
  {
    forall r: nat, tk: nat | r < c.br && tk < c.bc && Turn(c.tptg, l, r, c.bc, tk) && Cell(r, c.bc, tk) < i
      ensures Cleared(mem', r, tk)
    {
      assert Cleared(mem, r, tk) && Touches(c, ph, l, ScoreAt(r, tk));
    }
  }

  lemma {:induction false} FrameLoop(c: Group, l: nat, at: Place, rg: Regs, mem: Mem, mem': Mem)
    requires c.Valid() && LaneOk(c, l, at, rg, mem) && Agree(c, PhaseOf(c, at), l, mem, mem') && PhaseOf(c, at).Loop?
    ensures LaneOk(c, l, at, rg, mem')
  {
    AgreeRow(c, PhaseOf(c, at), l, mem, mem');
    var row := l < |c.g.q|;
    match at
    case Head(kb) => if row { FrameAcc(c, l, mem, mem', 0, c.Dim(), rg.m, c.T0(kb)); }
    case Clear(kb, i) =>
      FrameCleared(c, PhaseOf(c, at), l, mem, mem', i);
      if row { FrameAcc(c, l, mem, mem', 0, c.Dim(), rg.m, c.T0(kb)); }
    case AtClear(kb) =>
      FrameCleared(c, PhaseOf(c, at), l, mem, mem', c.br * c.bc);
      if row { FrameAcc(c, l, mem, mem', 0, c.Dim(), rg.m, c.T0(kb)); }
    case Store(_) => FrameAcc(c, l, mem, mem', 0, c.Dim(), rg.m, c.Tkv());
    case Done =>
  }

  lemma {:induction false} FrameLoading(c: Group, l: nat, at: Place, rg: Regs, mem: Mem, mem': Mem)
    requires c.Valid() && LaneOk(c, l, at, rg, mem) && Agree(c, PhaseOf(c, at), l, mem, mem') && PhaseOf(c, at).Loading?
    ensures LaneOk(c, l, at, rg, mem')
  {
    match at
    case Load(side, kb, d0, i) =>
      FrameLoaded(c, PhaseOf(c, at), l, mem, mem', side, kb, d0, i);
      AgreeRow(c, PhaseOf(c, at), l, mem, mem');
      if l < |c.g.q| { FrameSide(c, l, mem, mem', rg, side, kb, d0); }
    case AtLoad(side, kb, d0) =>
      FrameLoaded(c, PhaseOf(c, at), l, mem, mem', side, kb, d0, c.NK(kb) * D_TILE);
      AgreeRow(c, PhaseOf(c, at), l, mem, mem');
      if l < |c.g.q| { FrameSide(c, l, mem, mem', rg, side, kb, d0); }
  }

  lemma {:induction false} FrameScoring(c: Group, l: nat, at: Place, rg: Regs, mem: Mem, mem': Mem)
    requires c.Valid() && LaneOk(c, l, at, rg, mem) && Agree(c, PhaseOf(c, at), l, mem, mem') && PhaseOf(c, at).Scoring?
    ensures LaneOk(c, l, at, rg, mem')
  {
    AgreeRow(c, PhaseOf(c, at), l, mem, mem');
    match at
    case Score(kb, d0, tk, d) => FrameScore(c, PhaseOf(c, at), l, mem, mem', rg, kb, d0, tk, d);
    case AtScore(kb, d0) => if l < |c.g.q| { FrameSide(c, l, mem, mem', rg, K, kb, d0 + D_TILE); }
  }

  lemma {:induction false} FrameSoft(c: Group, l: nat, at: Place, rg: Regs, mem: Mem, mem': Mem)
    requires c.Valid() && LaneOk(c, l, at, rg, mem) && Agree(c, PhaseOf(c, at), l, mem, mem') && PhaseOf(c, at).Soft?
    ensures LaneOk(c, l, at, rg, mem')
  {
    AgreeRow(c, PhaseOf(c, at), l, mem, mem');
    match at
    case Mask(kb, tk) =>
      FrameAcc(c, l, mem, mem', 0, c.Dim(), rg.m, c.T0(kb));
      FrameLive(c, l, mem, mem', kb, 0, tk);
      FrameRaw(c, l, mem, mem', kb, tk, c.NK(kb), c.Dim());
    case Weigh(kb, tk) =>
      FrameAcc(c, l, mem, mem', 0, c.Dim(), rg.m, c.T0(kb));
      FrameWeight(c, l, mem, mem', kb, 0, tk, rg.mNew);
      FrameLive(c, l, mem, mem', kb, tk, c.NK(kb));
    case Scale(kb, d) =>
      FrameAcc(c, l, mem, mem', 0, d, rg.mNew, c.T0(kb));
      FrameAcc(c, l, mem, mem', d, c.Dim(), rg.m, c.T0(kb));
      FrameWeight(c, l, mem, mem', kb, 0, c.NK(kb), rg.mNew);
    case AtSoft(kb) => if l < |c.g.q| { FrameSide(c, l, mem, mem', rg, V, kb, 0); }
  }

  lemma {:induction false} FrameAdding(c: Group, l: nat, at: Place, rg: Regs, mem: Mem, mem': Mem)
    requires c.Valid() && LaneOk(c, l, at, rg, mem) && Agree(c, PhaseOf(c, at), l, mem, mem') && PhaseOf(c, at).Adding?
    ensures LaneOk(c, l, at, rg, mem')
  {
    AgreeRow(c, PhaseOf(c, at), l, mem, mem');
    match at
    case Pick(kb, d0, tk) => FrameMul(c, PhaseOf(c, at), l, mem, mem', rg, kb, d0, tk, 0);
    case Mul(kb, d0, tk, d) => FrameMul(c, PhaseOf(c, at), l, mem, mem', rg, kb, d0, tk, d);
    case AtMul(kb, d0) => if l < |c.g.q| { FrameSide(c, l, mem, mem', rg, V, kb, d0 + D_TILE); }
  }

  // What a lane holds depends only on the words of its phase.
  lemma {:induction false} LaneFrame(c: Group, l: nat, at: Place, rg: Regs, mem: Mem, mem': Mem)
    requires c.Valid() && LaneOk(c, l, at, rg, mem) && Agree(c, PhaseOf(c, at), l, mem, mem')
    ensures LaneOk(c, l, at, rg, mem')
  {
    match PhaseOf(c, at)
    case First => FrameFirst(c, l, at, rg, mem, mem');
    case Loop(_) => FrameLoop(c, l, at, rg, mem, mem');
    case Loading(_, _, _) => FrameLoading(c, l, at, rg, mem, mem');
    case Scoring(_, _) => FrameScoring(c, l, at, rg, mem, mem');
    case Soft(_) => FrameSoft(c, l, at, rg, mem, mem');
    case Adding(_, _) => FrameAdding(c, l, at, rg, mem, mem');
  }

  // ---------- a lane's own step ----------

  // The step keeps what the lane holds, stays in its phase, and writes only what is the lane's in that phase.
  ghost predicate StepOk(c: Group, l: nat, at: Place, rg: Regs, mem: Mem)
    requires c.Valid() && !Waits(at) && !Over(at)
  {
    var e := Step(c, l, at, rg, mem);
    LaneOk(c, l, e.at, e.rg, Written(mem, e.put)) && PhaseOf(c, e.at) == PhaseOf(c, at)
    && (e.put.Put? ==> Mine(c, PhaseOf(c, at), l, e.put.x) && InArray(c, e.put.x))
  }

  lemma {:induction false} NoKeysFinal(c: Group, l: nat, d: nat)
    requires c.Valid() && l < |c.g.q| && d < c.Dim() && c.Tkv() == 0
    ensures Final(c, l, d) == c.store(0.0)
  {
  }

  lemma {:induction false} FirstStep(c: Group, l: nat, at: Place, rg: Regs, mem: Mem)
    requires c.Valid() && l < c.tptg && LaneOk(c, l, at, rg, mem) && (at.Begin? || at.Blank? || at.Zero?)
    ensures StepOk(c, l, at, rg, mem)
  {
    if at.Blank? && at.d < c.Dim() {
      NoKeysFinal(c, l, at.d);
    }
  }

  // A skipped block adds nothing to a row.
  lemma {:induction false} SkipHolds(c: Group, mem: Mem, l: nat, rg: Regs, kb: nat)
    requires c.Valid() && l < |c.g.q| && c.Skipped(kb) && Holds(c, mem, l, rg, c.T0(kb))
    ensures Holds(c, mem, l, rg, c.T0(kb) + c.NK(kb))
  {
    var row, n, n' := c.w.rows[l], c.T0(kb), c.T0(kb) + c.NK(kb);
    forall t | n <= t < n' ensures !row[t].live {
      SkippedBlockIsDead(c.g.a, c.g.q0, |c.g.q|, n, c.NK(kb), c.g.q0 + l, t);
    }
    DeadSpan(c.exp, row, seq(|row|, _ => 0.0), rg.m, n, n');
    forall d: nat | d < c.Dim() ensures AccAt(c, mem, l, d, rg.m, n') {
      assert AccAt(c, mem, l, d, rg.m, n);
      DeadSpan(c.exp, row, c.w.cols[d], rg.m, n, n');
    }
  }

  // A lane's first iteration of a strided loop is its own number.
  lemma {:induction false} FirstTurn(tptg: nat, l: nat, row: nat, width: nat, col: nat)
    requires l < tptg && Turn(tptg, l, row, width, col)
    ensures Cell(row, width, col) >= l && l % tptg == l
  {
    var x := Cell(row, width, col);
    ModUnique(l, 0, l, tptg);
    assert x == (x / tptg) * tptg + x % tptg;
    MulMono(0, x / tptg, tptg);
  }

  lemma {:induction false} NothingCleared(c: Group, mem: Mem, l: nat)
    requires c.Valid() && l < c.tptg
    ensures ClearedBy(c, mem, l, l) && l % c.tptg == l
  {
    ModUnique(l, 0, l, c.tptg);
    forall r: nat, tk: nat | r < c.br && tk < c.bc && Turn(c.tptg, l, r, c.bc, tk) ensures Cell(r, c.bc, tk) >= l {
      FirstTurn(c.tptg, l, r, c.bc, tk);
    }
  }

  lemma {:induction false} NothingLoaded(c: Group, mem: Mem, side: Side, kb: nat, d0: nat, l: nat)
    requires c.Valid() && l < c.tptg
    ensures LoadedBy(c, mem, side, kb, d0, l, l) && l % c.tptg == l
  {
    ModUnique(l, 0, l, c.tptg);
    forall tk: nat, d: nat | tk < c.NK(kb) && d < D_TILE && Turn(c.tptg, l, tk, D_TILE, d) ensures Cell(tk, D_TILE, d) >= l {
      FirstTurn(c.tptg, l, tk, D_TILE, d);
    }
  }

  lemma {:induction false} HeadSkip(c: Group, l: nat, kb: nat, rg: Regs, mem: Mem)
    requires c.Valid() && l < c.tptg && LaneOk(c, l, Head(kb), rg, mem) && kb < c.Blocks() && c.Skipped(kb)
    ensures StepOk(c, l, Head(kb), rg, mem)
  {
    BlockBounds(kb, c.bc, c.Tkv());
    if l < |c.g.q| { SkipHolds(c, mem, l, rg, kb); }
  }

  lemma {:induction false} HeadRun(c: Group, l: nat, kb: nat, rg: Regs, mem: Mem)
    requires c.Valid() && l < c.tptg && LaneOk(c, l, Head(kb), rg, mem) && kb < c.Blocks() && !c.Skipped(kb)
    ensures StepOk(c, l, Head(kb), rg, mem)
  {
    NothingCleared(c, mem, l);
  }

  lemma {:induction false} HeadEnd(c: Group, l: nat, kb: nat, rg: Regs, mem: Mem)
    requires c.Valid() && l < c.tptg && LaneOk(c, l, Head(kb), rg, mem) && kb == c.Blocks()
    ensures StepOk(c, l, Head(kb), rg, mem)
  {
    BlockBounds(kb, c.bc, c.Tkv());
  }

  // The iterations of lane l before i + tptg are those before i, and i itself.
  lemma {:induction false} OneMore(tptg: nat, l: nat, i: nat, x: nat)
    requires tptg > 0 && i % tptg == l && x % tptg == l && x < i + tptg
    ensures x <= i
    ensures (i + tptg) % tptg == l
  {
    if i < x { StrideGap(i, x, tptg); }
    StrideStep(i, tptg);
  }

  lemma {:induction false} AtCell(i: nat, row: nat, width: nat, col: nat)
    requires width > 0 && col < width
    ensures Cell(row, width, col) == i <==> row == i / width && col == i % width
  {
    if Cell(row, width, col) == i { ModUnique(i, row, col, width); }
    assert i == (i / width) * width + i % width;
  }

  lemma {:induction false} ClearWrites(c: Group, mem: Mem, l: nat, i: nat, x: Word)
    requires c.Valid() && i % c.tptg == l && ClearedBy(c, mem, l, i) && i < c.br * c.bc
    requires x == ScoreAt(i / c.bc, i % c.bc)
    ensures ClearedBy(c, mem[x := 0.0], l, i + c.tptg) && (i + c.tptg) % c.tptg == l
    ensures InArray(c, x) && Turn(c.tptg, l, x.r, c.bc, x.tk)
  {
    var mem' := mem[x := 0.0];
    InRows(i, c.br, c.bc);
    AtCell(i, x.r, c.bc, x.tk);
    OneMore(c.tptg, l, i, i);
    forall r: nat, tk: nat | r < c.br && tk < c.bc && Turn(c.tptg, l, r, c.bc, tk) && Cell(r, c.bc, tk) < i + c.tptg
      ensures Cleared(mem', r, tk)
    {
      OneMore(c.tptg, l, i, Cell(r, c.bc, tk));
      AtCell(i, r, c.bc, tk);
      if Cell(r, c.bc, tk) < i { assert Cleared(mem, r, tk); }
    }
  }

  lemma {:induction false} ClearStep(c: Group, l: nat, kb: nat, i: nat, rg: Regs, mem: Mem)
    requires c.Valid() && l < c.tptg && LaneOk(c, l, Clear(kb, i), rg, mem) && i < c.br * c.bc
    ensures StepOk(c, l, Clear(kb, i), rg, mem)
  {
    var x := StepClear(c, kb, i, rg).put.x;
    ClearWrites(c, mem, l, i, x);
    if l < |c.g.q| { HoldsApart(c, mem, l, rg, c.T0(kb), x, 0.0); }
  }

  lemma {:induction false} ClearEndStep(c: Group, l: nat, kb: nat, i: nat, rg: Regs, mem: Mem)
    requires c.Valid() && l < c.tptg && LaneOk(c, l, Clear(kb, i), rg, mem) && i >= c.br * c.bc
    ensures StepOk(c, l, Clear(kb, i), rg, mem)
  {
  }

  // Writing a word outside the accumulator changes nothing a row holds in it.
  lemma {:induction false} HoldsApart(c: Group, mem: Mem, l: nat, rg: Regs, n: nat, x: Word, v: real)
    requires c.Valid() && l < |c.g.q| && n <= c.Tkv() && Holds(c, mem, l, rg, n) && !x.OaccAt?
    ensures Holds(c, mem[x := v], l, rg, n)
  {
    FrameAcc(c, l, mem, mem[x := v], 0, c.Dim(), rg.m, n);
  }

  lemma {:induction false} LoadWrites(c: Group, mem: Mem, side: Side, kb: nat, d0: nat, l: nat, i: nat, x: Word, v: real)
    requires c.Valid() && i % c.tptg == l && LoadedBy(c, mem, side, kb, d0, l, i) && i < c.NK(kb) * D_TILE
    requires x == StagedAt(side, i / D_TILE, i % D_TILE) && v == At(Source(c, side), c.T0(kb) + i / D_TILE, d0 + i % D_TILE)
    ensures LoadedBy(c, mem[x := v], side, kb, d0, l, i + c.tptg) && (i + c.tptg) % c.tptg == l
    ensures InArray(c, x) && Mine(c, Loading(side, kb, d0), l, x)
  {
    var mem' := mem[x := v];
    InRows(i, c.NK(kb), D_TILE);
    AtCell(i, x.tk, D_TILE, x.d);
    OneMore(c.tptg, l, i, i);
    forall tk: nat, d: nat | tk < c.NK(kb) && d < D_TILE && Turn(c.tptg, l, tk, D_TILE, d) && Cell(tk, D_TILE, d) < i + c.tptg
      ensures StagedIs(c, mem', side, kb, d0, tk, d)
    {
      OneMore(c.tptg, l, i, Cell(tk, D_TILE, d));
      AtCell(i, tk, D_TILE, d);
      if Cell(tk, D_TILE, d) < i { assert StagedIs(c, mem, side, kb, d0, tk, d); }
    }
  }

  lemma {:induction false} LoadStep(c: Group, l: nat, side: Side, kb: nat, d0: nat, i: nat, rg: Regs, mem: Mem)
    requires c.Valid() && l < c.tptg && LaneOk(c, l, Load(side, kb, d0, i), rg, mem) && i < c.NK(kb) * D_TILE
    ensures StepOk(c, l, Load(side, kb, d0, i), rg, mem)
  {
    var put := StepLoad(c, side, kb, d0, i, rg).put;
    LoadWrites(c, mem, side, kb, d0, l, i, put.x, put.v);
    if l < |c.g.q| { FrameSide(c, l, mem, mem[put.x := put.v], rg, side, kb, d0); }
  }

  lemma {:induction false} LoadEndStep(c: Group, l: nat, side: Side, kb: nat, d0: nat, i: nat, rg: Regs, mem: Mem)
    requires c.Valid() && l < c.tptg && LaneOk(c, l, Load(side, kb, d0, i), rg, mem) && i >= c.NK(kb) * D_TILE
    ensures StepOk(c, l, Load(side, kb, d0, i), rg, mem)
  {
  }

  // One more term of the dot product over the staged slice.
  lemma {:induction false} ScoreTerm(c: Group, mem: Mem, l: nat, rg: Regs, kb: nat, d0: nat, tk: nat, d: nat)
    requires c.Valid() && l < |c.g.q| && Slice(c, d0) && ScoreOk(c, mem, l, rg, kb, d0, tk, d) && tk < c.NK(kb) && d < D_TILE
    ensures ScoreOk(c, mem, l, StepScore(c, l, kb, d0, tk, d, rg, mem).rg, kb, d0, tk, d + 1)
  {
    assert StagedIs(c, mem, K, kb, d0, tk, d);
  }

  // Nothing is staged over by a write elsewhere.
  lemma {:induction false} StagedApart(c: Group, mem: Mem, side: Side, kb: nat, d0: nat, x: Word, v: real)
    requires c.Valid() && AllLoaded(c, mem, side, kb, d0) && !x.StagedAt?
    ensures AllLoaded(c, mem[x := v], side, kb, d0)
  {
    var mem' := mem[x := v];
    forall t: nat, e: nat | t < c.NK(kb) && e < D_TILE ensures StagedIs(c, mem', side, kb, d0, t, e) {
      assert StagedIs(c, mem, side, kb, d0, t, e);
    }
  }

  // The finished term is added to the score.
  lemma {:induction false} ScoreAdds(c: Group, mem: Mem, l: nat, rg: Regs, kb: nat, d0: nat, tk: nat)
    requires c.Valid() && l < |c.g.q| && Slice(c, d0) && ScoreOk(c, mem, l, rg, kb, d0, tk, D_TILE) && tk < c.NK(kb)
    ensures ScoreOk(c, mem[ScoreAt(l, tk) := Read(mem, ScoreAt(l, tk)) + rg.s], l, rg.(s := 0.0), kb, d0, tk + 1, 0)
  {
    var x, v := ScoreAt(l, tk), Read(mem, ScoreAt(l, tk)) + rg.s;
    var mem' := mem[x := v];
    assert RawAt(c, mem, l, kb, tk, d0);
    assert RawAt(c, mem', l, kb, tk, d0 + D_TILE);
    FrameRaw(c, l, mem, mem', kb, 0, tk, d0 + D_TILE);
    FrameRaw(c, l, mem, mem', kb, tk + 1, c.NK(kb), d0);
    StagedApart(c, mem, K, kb, d0, x, v);
    HoldsApart(c, mem, l, rg, c.T0(kb), x, v);
  }

  lemma {:induction false} ScoreTermStep(c: Group, l: nat, kb: nat, d0: nat, tk: nat, d: nat, rg: Regs, mem: Mem)
    requires c.Valid() && l < c.tptg && LaneOk(c, l, Score(kb, d0, tk, d), rg, mem) && tk < c.NK(kb) && d < D_TILE
    ensures StepOk(c, l, Score(kb, d0, tk, d), rg, mem)
  {
    ScoreTerm(c, mem, l, rg, kb, d0, tk, d);
  }

  lemma {:induction false} ScoreAddStep(c: Group, l: nat, kb: nat, d0: nat, tk: nat, d: nat, rg: Regs, mem: Mem)
    requires c.Valid() && l < c.tptg && LaneOk(c, l, Score(kb, d0, tk, d), rg, mem) && tk < c.NK(kb) && d == D_TILE
    ensures StepOk(c, l, Score(kb, d0, tk, d), rg, mem)
  {
    ScoreAdds(c, mem, l, rg, kb, d0, tk);
  }

  lemma {:induction false} ScoreEndStep(c: Group, l: nat, kb: nat, d0: nat, tk: nat, d: nat, rg: Regs, mem: Mem)
    requires c.Valid() && l < c.tptg && LaneOk(c, l, Score(kb, d0, tk, d), rg, mem) && tk >= c.NK(kb)
    ensures StepOk(c, l, Score(kb, d0, tk, d), rg, mem)
  {
    assert SideOk(c, mem, l, rg, K, kb, d0 + D_TILE);
  }

  lemma {:induction false} MaskWrites(c: Group, mem: Mem, l: nat, rg: Regs, kb: nat, tk: nat)
    requires c.Valid() && l < |c.g.q| && MaskOk(c, mem, l, rg, kb, tk) && tk < c.NK(kb)
    ensures var e := StepMask(c, l, kb, tk, rg, mem);
            MaskOk(c, mem[ScoreAt(l, tk) := e.put.v], l, e.rg, kb, tk + 1)
  {
    var x, v := ScoreAt(l, tk), StepMask(c, l, kb, tk, rg, mem).put.v;
    var mem' := mem[x := v];
    KernelMaskIsKeep(c.g.a, c.TQ(l), c.T0(kb) + tk);
    assert RawAt(c, mem, l, kb, tk, c.Dim());
    assert LiveAt(c, mem', l, kb, tk);
    FrameLive(c, l, mem, mem', kb, 0, tk);
    FrameRaw(c, l, mem, mem', kb, tk + 1, c.NK(kb), c.Dim());
    HoldsApart(c, mem, l, rg, c.T0(kb), x, v);
  }

  lemma {:induction false} MaskStep(c: Group, l: nat, kb: nat, tk: nat, rg: Regs, mem: Mem)
    requires c.Valid() && l < c.tptg && LaneOk(c, l, Mask(kb, tk), rg, mem) && tk < c.NK(kb)
    ensures StepOk(c, l, Mask(kb, tk), rg, mem)
  {
    MaskWrites(c, mem, l, rg, kb, tk);
  }

  lemma {:induction false} MaskEndStep(c: Group, l: nat, kb: nat, tk: nat, rg: Regs, mem: Mem)
    requires c.Valid() && l < c.tptg && LaneOk(c, l, Mask(kb, tk), rg, mem) && tk >= c.NK(kb)
    ensures StepOk(c, l, Mask(kb, tk), rg, mem)
  {
  }

  // A live key's weight is the exponential of its score, a masked key's is 0.
  lemma {:induction false} WeighedIs(c: Group, mem: Mem, l: nat, rg: Regs, kb: nat, tk: nat)
    requires c.Valid() && l < |c.g.q| && tk < c.NK(kb) && LiveAt(c, mem, l, kb, tk)
    ensures StepWeigh(c, l, kb, tk, rg, mem).put.v == Weight(c.exp, c.w.rows[l][c.T0(kb) + tk], rg.mNew)
  {
    KernelMaskIsKeep(c.g.a, c.TQ(l), c.T0(kb) + tk);
  }

  lemma {:induction false} WeighWrites(c: Group, mem: Mem, l: nat, rg: Regs, kb: nat, tk: nat)
    requires c.Valid() && l < |c.g.q| && WeighOk(c, mem, l, rg, kb, tk) && tk < c.NK(kb)
    ensures var e := StepWeigh(c, l, kb, tk, rg, mem);
            WeighOk(c, mem[ScoreAt(l, tk) := e.put.v], l, e.rg, kb, tk + 1)
  {
    var x, v := ScoreAt(l, tk), StepWeigh(c, l, kb, tk, rg, mem).put.v;
    var mem' := mem[x := v];
    assert LiveAt(c, mem, l, kb, tk);
    WeighedIs(c, mem, l, rg, kb, tk);
    assert WeightAt(c, mem', l, kb, tk, rg.mNew);
    FrameWeight(c, l, mem, mem', kb, 0, tk, rg.mNew);
    FrameLive(c, l, mem, mem', kb, tk + 1, c.NK(kb));
    HoldsApart(c, mem, l, rg, c.T0(kb), x, v);
  }

  lemma {:induction false} WeighStep(c: Group, l: nat, kb: nat, tk: nat, rg: Regs, mem: Mem)
    requires c.Valid() && l < c.tptg && LaneOk(c, l, Weigh(kb, tk), rg, mem) && tk < c.NK(kb)
    ensures StepOk(c, l, Weigh(kb, tk), rg, mem)
  {
    WeighWrites(c, mem, l, rg, kb, tk);
  }

  lemma {:induction false} WeighEnds(c: Group, mem: Mem, l: nat, rg: Regs, kb: nat, tk: nat)
    requires c.Valid() && l < |c.g.q| && WeighOk(c, mem, l, rg, kb, tk) && tk >= c.NK(kb)
    ensures ScaleOk(c, mem, l, rg, kb, 0)
  {
  }

  lemma {:induction false} WeighEndStep(c: Group, l: nat, kb: nat, tk: nat, rg: Regs, mem: Mem)
    requires c.Valid() && l < c.tptg && LaneOk(c, l, Weigh(kb, tk), rg, mem) && tk >= c.NK(kb)
    ensures StepOk(c, l, Weigh(kb, tk), rg, mem)
  {
    WeighEnds(c, mem, l, rg, kb, tk);
  }

  lemma {:induction false} Rescaled(c: Group, mem: Mem, l: nat, rg: Regs, d: nat, n: nat)
    requires c.Valid() && l < |c.g.q| && d < c.Dim() && n <= c.Tkv() && AccAt(c, mem, l, d, rg.m, n)
    requires rg.l == RowMass(c, l, rg.m, n) && rg.alpha == if rg.l > 0.0 then c.exp(rg.m - rg.mNew) else 0.0
    ensures AccAt(c, mem[OaccAt(l, d) := Scaled(Read(mem, OaccAt(l, d)), rg.alpha)], l, d, rg.mNew, n)
  {
    RescaleOrZero(c.exp, c.w.rows[l], c.w.cols[d], rg.m, rg.mNew, n, rg.alpha);
  }

  lemma {:induction false} ScaleWrites(c: Group, mem: Mem, l: nat, rg: Regs, kb: nat, d: nat)
    requires c.Valid() && l < |c.g.q| && ScaleOk(c, mem, l, rg, kb, d) && d < c.Dim()
    ensures ScaleOk(c, mem[OaccAt(l, d) := Scaled(Read(mem, OaccAt(l, d)), rg.alpha)], l, rg, kb, d + 1)
  {
    var mem' := mem[OaccAt(l, d) := Scaled(Read(mem, OaccAt(l, d)), rg.alpha)];
    assert AccAt(c, mem, l, d, rg.m, c.T0(kb));
    Rescaled(c, mem, l, rg, d, c.T0(kb));
    FrameAcc(c, l, mem, mem', 0, d, rg.mNew, c.T0(kb));
    FrameAcc(c, l, mem, mem', d + 1, c.Dim(), rg.m, c.T0(kb));
    FrameWeight(c, l, mem, mem', kb, 0, c.NK(kb), rg.mNew);
  }

  // The sum is rescaled like the accumulator, and takes the block in.
  lemma {:induction false} MassRescaled(c: Group, l: nat, rg: Regs, n: nat, n': nat)
    requires c.Valid() && l < |c.g.q| && n <= n' <= c.Tkv() && rg.l == RowMass(c, l, rg.m, n)
    requires rg.alpha == if rg.l > 0.0 then c.exp(rg.m - rg.mNew) else 0.0
    requires RowMass(c, l, rg.mNew, n) + rg.mass == RowMass(c, l, rg.mNew, n')
    ensures rg.l * rg.alpha + rg.mass == RowMass(c, l, rg.mNew, n')
  {
    var row := c.w.rows[l];
    RescaleOrZero(c.exp, row, seq(|row|, _ => 0.0), rg.m, rg.mNew, n, rg.alpha);
  }

  lemma {:induction false} ScaleEnds(c: Group, mem: Mem, l: nat, rg: Regs, kb: nat, d: nat)
    requires c.Valid() && l < |c.g.q| && ScaleOk(c, mem, l, rg, kb, d) && d >= c.Dim()
    ensures SideOk(c, mem, l, StepScale(c, l, kb, d, rg, mem).rg, V, kb, 0)
  {
    MassRescaled(c, l, rg, c.T0(kb), c.T0(kb) + c.NK(kb));
    forall e: nat | e < c.Dim() ensures AccAt(c, mem, l, e, rg.mNew, KeysIn(c, kb, 0, 0, 0, e)) {
      assert AccAt(c, mem, l, e, rg.mNew, c.T0(kb));
    }
  }

  lemma {:induction false} ScaleStep(c: Group, l: nat, kb: nat, d: nat, rg: Regs, mem: Mem)
    requires c.Valid() && l < c.tptg && LaneOk(c, l, Scale(kb, d), rg, mem) && d < c.Dim()
    ensures StepOk(c, l, Scale(kb, d), rg, mem)
  {
    ScaleWrites(c, mem, l, rg, kb, d);
  }

  lemma {:induction false} ScaleEndStep(c: Group, l: nat, kb: nat, d: nat, rg: Regs, mem: Mem)
    requires c.Valid() && l < c.tptg && LaneOk(c, l, Scale(kb, d), rg, mem) && d >= c.Dim()
    ensures StepOk(c, l, Scale(kb, d), rg, mem)
  {
    ScaleEnds(c, mem, l, rg, kb, d);
  }

  lemma {:induction false} PickStarts(c: Group, mem: Mem, l: nat, rg: Regs, kb: nat, d0: nat, tk: nat)
    requires c.Valid() && l < |c.g.q| && Slice(c, d0) && MulOk(c, mem, l, rg, kb, d0, tk, 0) && tk < c.NK(kb)
    ensures MulOk(c, mem, l, rg.(p := Read(mem, ScoreAt(l, tk))), kb, d0, tk, 0)
    ensures WeightsAre(c.w, c.exp, Read(mem, ScoreAt(l, tk)), l, c.T0(kb) + tk, rg.m)
  {
    assert WeightAt(c, mem, l, kb, tk, rg.m);
  }

  lemma {:induction false} PickEnds(c: Group, mem: Mem, l: nat, rg: Regs, kb: nat, d0: nat, tk: nat)
    requires c.Valid() && LaneOk(c, l, Pick(kb, d0, tk), rg, mem) && tk >= c.NK(kb)
    ensures LaneOk(c, l, AtMul(kb, d0), rg, mem)
  {
    StairsSame(c, mem, l, rg.m, kb, d0, tk, 0, d0 + D_TILE, 0);
  }

  lemma {:induction false} PickStep(c: Group, l: nat, kb: nat, d0: nat, tk: nat, rg: Regs, mem: Mem)
    requires c.Valid() && l < c.tptg && LaneOk(c, l, Pick(kb, d0, tk), rg, mem) && tk < c.NK(kb)
    ensures StepOk(c, l, Pick(kb, d0, tk), rg, mem)
  {
    PickStarts(c, mem, l, rg, kb, d0, tk);
  }

  lemma {:induction false} PickEndStep(c: Group, l: nat, kb: nat, d0: nat, tk: nat, rg: Regs, mem: Mem)
    requires c.Valid() && l < c.tptg && LaneOk(c, l, Pick(kb, d0, tk), rg, mem) && tk >= c.NK(kb)
    ensures StepOk(c, l, Pick(kb, d0, tk), rg, mem)
  {
    PickEnds(c, mem, l, rg, kb, d0, tk);
  }

  // One more coordinate of the slice holds one more key.
  lemma {:induction false} StairsUp(c: Group, mem: Mem, l: nat, m: real, kb: nat, d0: nat, tk: nat, e: nat, v: real)
    requires c.Valid() && l < |c.g.q| && Slice(c, d0) && tk < c.NK(kb) && e < D_TILE && Stairs(c, mem, l, m, kb, d0, tk, e)
    requires AccIs(c.w, c.exp, v, l, d0 + e, m, c.T0(kb) + tk + 1)
    ensures Stairs(c, mem[OaccAt(l, d0 + e) := v], l, m, kb, d0, tk, e + 1)
  {
    var mem', next := mem[OaccAt(l, d0 + e) := v], e + 1;
    forall d: nat | d < c.Dim() ensures AccAt(c, mem', l, d, m, KeysIn(c, kb, d0, tk, next, d)) {
      if d != d0 + e { assert AccAt(c, mem, l, d, m, KeysIn(c, kb, d0, tk, e, d)); }
    }
  }

  lemma {:induction false} MulZones(c: Group, l: nat, kb: nat, d0: nat, tk: nat, d: nat, rg: Regs, mem: Mem, v: real)
    requires c.Valid() && l < |c.g.q| && Slice(c, d0) && MulOk(c, mem, l, rg, kb, d0, tk, d) && tk < c.NK(kb) && d < D_TILE
    requires AccIs(c.w, c.exp, v, l, d0 + d, rg.m, c.T0(kb) + tk + 1)
    ensures MulOk(c, mem[OaccAt(l, d0 + d) := v], l, rg, kb, d0, tk, d + 1)
  {
    StairsUp(c, mem, l, rg.m, kb, d0, tk, d, v);
    FrameWeight(c, l, mem, mem[OaccAt(l, d0 + d) := v], kb, 0, c.NK(kb), rg.m);
    StagedApart(c, mem, V, kb, d0, OaccAt(l, d0 + d), v);
  }

  // Two descriptions of the same stairs.
  lemma {:induction false} StairsSame(c: Group, mem: Mem, l: nat, m: real, kb: nat, d0: nat, tk: nat, e: nat, d1: nat, tk': nat)
    requires c.Valid() && l < |c.g.q| && (tk < c.NK(kb) || (tk == c.NK(kb) && e == 0)) && tk' <= c.NK(kb)
    requires forall d: nat | d < c.Dim() :: KeysIn(c, kb, d0, tk, e, d) == KeysIn(c, kb, d1, tk', 0, d)
    requires Stairs(c, mem, l, m, kb, d0, tk, e)
    ensures Stairs(c, mem, l, m, kb, d1, tk', 0)
  {
    forall d: nat | d < c.Dim() ensures AccAt(c, mem, l, d, m, KeysIn(c, kb, d1, tk', 0, d)) {
      assert AccAt(c, mem, l, d, m, KeysIn(c, kb, d0, tk, e, d));
    }
  }

  lemma {:induction false} MixAdds(exp: real -> real, row: seq<Key>, v: seq<real>, m: real, n: nat, x: real, p: real, val: real)
    requires n < |row| && n < |v| && x == Mix(exp, row, v, m, n) && p == Weight(exp, row[n], m) && val == v[n]
    ensures x + Scaled(p, val) == Mix(exp, row, v, m, n + 1)
  {
  }

  // The staged value is the key's coordinate.
  lemma {:induction false} StagedValue(c: Group, j: nat, d: nat)
    requires c.Valid() && j < c.Tkv() && d < c.Dim()
    ensures At(Source(c, V), j, d) == c.w.cols[d][j] && |c.w.cols[d]| == c.Tkv()
  {
    assert c.w.cols[d] == c.g.Col(d);
  }

  lemma {:induction false} MulAdds(c: Group, mem: Mem, l: nat, rg: Regs, kb: nat, d0: nat, tk: nat, d: nat)
    requires c.Valid() && l < |c.g.q| && Slice(c, d0) && MulOk(c, mem, l, rg, kb, d0, tk, d) && tk < c.NK(kb) && d < D_TILE
    requires WeightsAre(c.w, c.exp, rg.p, l, c.T0(kb) + tk, rg.m)
    ensures MulOk(c, mem[OaccAt(l, d0 + d) := StepMul(l, kb, d0, tk, d, rg, mem).put.v], l, rg, kb, d0, tk, d + 1)
  {
    var n, x, val := c.T0(kb) + tk, Read(mem, OaccAt(l, d0 + d)), Read(mem, StagedAt(V, tk, d));
    assert AccAt(c, mem, l, d0 + d, rg.m, KeysIn(c, kb, d0, tk, d, d0 + d)) && StagedIs(c, mem, V, kb, d0, tk, d);
    StagedValue(c, n, d0 + d);
    MixAdds(c.exp, c.w.rows[l], c.w.cols[d0 + d], rg.m, n, x, rg.p, val);
    MulZones(c, l, kb, d0, tk, d, rg, mem, x + Scaled(rg.p, val));
  }

  lemma {:induction false} KeyDone(c: Group, mem: Mem, l: nat, rg: Regs, kb: nat, d0: nat, tk: nat, d: nat)
    requires c.Valid() && l < |c.g.q| && MulOk(c, mem, l, rg, kb, d0, tk, d) && tk < c.NK(kb) && d >= D_TILE
    ensures MulOk(c, mem, l, rg, kb, d0, tk + 1, 0)
  {
    StairsSame(c, mem, l, rg.m, kb, d0, tk, d, d0, tk + 1);
  }

  lemma {:induction false} MulEnds(c: Group, mem: Mem, l: nat, rg: Regs, kb: nat, d0: nat, tk: nat, d: nat)
    requires c.Valid() && LaneOk(c, l, Mul(kb, d0, tk, d), rg, mem) && d >= D_TILE
    ensures LaneOk(c, l, Pick(kb, d0, tk + 1), rg, mem)
  {
    KeyDone(c, mem, l, rg, kb, d0, tk, d);
  }

  lemma {:induction false} MulStep(c: Group, l: nat, kb: nat, d0: nat, tk: nat, d: nat, rg: Regs, mem: Mem)
    requires c.Valid() && l < c.tptg && LaneOk(c, l, Mul(kb, d0, tk, d), rg, mem) && d < D_TILE
    ensures StepOk(c, l, Mul(kb, d0, tk, d), rg, mem)
  {
    MulAdds(c, mem, l, rg, kb, d0, tk, d);
  }

  lemma {:induction false} MulEndStep(c: Group, l: nat, kb: nat, d0: nat, tk: nat, d: nat, rg: Regs, mem: Mem)
    requires c.Valid() && l < c.tptg && LaneOk(c, l, Mul(kb, d0, tk, d), rg, mem) && d >= D_TILE
    ensures StepOk(c, l, Mul(kb, d0, tk, d), rg, mem)
  {
    MulEnds(c, mem, l, rg, kb, d0, tk, d);
  }

  // The sums of a whole row, normalised as the kernel does.
  lemma {:induction false} Normalised(exp: real -> real, row: seq<Key>, v: seq<real>, m: real, x: real, l: real)
    requires IsExp(exp) && |v| == |row| && x == Mix(exp, row, v, m, |row|) && l == Mass(exp, row, m, |row|)
    ensures Scaled(x, if l > 0.0 then 1.0 / l else 0.0) == Attend(exp, row, v)
  {
    NormaliseAnyShift(exp, row, v, m);
  }

  lemma {:induction false} Finishes(c: Group, x: real, l: nat, rg: Regs, d: nat)
    requires c.Valid() && l < |c.g.q| && d < c.Dim() && rg.l == RowMass(c, l, rg.m, c.Tkv())
    requires AccIs(c.w, c.exp, x, l, d, rg.m, c.Tkv())
    ensures c.store(Scaled(x, if rg.l > 0.0 then 1.0 / rg.l else 0.0)) == Final(c, l, d)
  {
    assert |c.w.rows[l]| == c.Tkv();
    Normalised(c.exp, c.w.rows[l], c.w.cols[d], rg.m, x, rg.l);
  }

  lemma {:induction false} StoreWrites(c: Group, mem: Mem, l: nat, rg: Regs, d: nat)
    requires c.Valid() && l < |c.g.q| && d < c.Dim() && Holds(c, mem, l, rg, c.Tkv()) && OutZone(c, mem, l, d)
    ensures var e := StepStore(c, l, d, rg, mem);
            Holds(c, mem[e.put.x := e.put.v], l, rg, c.Tkv()) && OutZone(c, mem[e.put.x := e.put.v], l, d + 1)
  {
    assert AccAt(c, mem, l, d, rg.m, c.Tkv());
    Finishes(c, Read(mem, OaccAt(l, d)), l, rg, d);
    var e := StepStore(c, l, d, rg, mem);
    HoldsApart(c, mem, l, rg, c.Tkv(), e.put.x, e.put.v);
  }

  lemma {:induction false} StoreStep(c: Group, l: nat, d: nat, rg: Regs, mem: Mem)
    requires c.Valid() && l < c.tptg && LaneOk(c, l, Store(d), rg, mem)
    ensures StepOk(c, l, Store(d), rg, mem)
  {
    if d < c.Dim() { StoreWrites(c, mem, l, rg, d); }
  }

  lemma {:induction false} LoopStep(c: Group, l: nat, at: Place, rg: Regs, mem: Mem)
    requires c.Valid() && l < c.tptg && LaneOk(c, l, at, rg, mem) && (at.Head? || at.Clear? || at.Store?)
    ensures StepOk(c, l, at, rg, mem)
  {
    match at
    case Head(kb) =>
      if kb == c.Blocks() { HeadEnd(c, l, kb, rg, mem); }
      else if c.Skipped(kb) { HeadSkip(c, l, kb, rg, mem); }
      else { HeadRun(c, l, kb, rg, mem); }
    case Clear(kb, i) => if i < c.br * c.bc { ClearStep(c, l, kb, i, rg, mem); } else { ClearEndStep(c, l, kb, i, rg, mem); }
    case Store(d) => StoreStep(c, l, d, rg, mem);
  }

  lemma {:induction false} ScoreStep(c: Group, l: nat, at: Place, rg: Regs, mem: Mem)
    requires c.Valid() && l < c.tptg && LaneOk(c, l, at, rg, mem) && (at.Score?)
    ensures StepOk(c, l, at, rg, mem)
  {
    match at
    case Score(kb, d0, tk, d) =>
      if tk >= c.NK(kb) { ScoreEndStep(c, l, kb, d0, tk, d, rg, mem); }
      else if d < D_TILE { ScoreTermStep(c, l, kb, d0, tk, d, rg, mem); }
      else { ScoreAddStep(c, l, kb, d0, tk, d, rg, mem); }
  }

  lemma {:induction false} SoftStep(c: Group, l: nat, at: Place, rg: Regs, mem: Mem)
    requires c.Valid() && l < c.tptg && LaneOk(c, l, at, rg, mem) && (at.Mask? || at.Weigh? || at.Scale?)
    ensures StepOk(c, l, at, rg, mem)
  {
    match at
    case Mask(kb, tk) => if tk < c.NK(kb) { MaskStep(c, l, kb, tk, rg, mem); } else { MaskEndStep(c, l, kb, tk, rg, mem); }
    case Weigh(kb, tk) => if tk < c.NK(kb) { WeighStep(c, l, kb, tk, rg, mem); } else { WeighEndStep(c, l, kb, tk, rg, mem); }
    case Scale(kb, d) => if d < c.Dim() { ScaleStep(c, l, kb, d, rg, mem); } else { ScaleEndStep(c, l, kb, d, rg, mem); }
  }

  lemma {:induction false} AddStep(c: Group, l: nat, at: Place, rg: Regs, mem: Mem)
    requires c.Valid() && l < c.tptg && LaneOk(c, l, at, rg, mem) && (at.Pick? || at.Mul?)
    ensures StepOk(c, l, at, rg, mem)
  {
    match at
    case Pick(kb, d0, tk) =>
      if tk < c.NK(kb) { PickStep(c, l, kb, d0, tk, rg, mem); } else { PickEndStep(c, l, kb, d0, tk, rg, mem); }
    case Mul(kb, d0, tk, d) =>
      if d < D_TILE { MulStep(c, l, kb, d0, tk, d, rg, mem); } else { MulEndStep(c, l, kb, d0, tk, d, rg, mem); }
  }

  lemma {:induction false} LaneStep(c: Group, l: nat, at: Place, rg: Regs, mem: Mem)
    requires c.Valid() && l < c.tptg && LaneOk(c, l, at, rg, mem) && !Waits(at) && !Over(at)
    ensures StepOk(c, l, at, rg, mem)
  {
    match PhaseOf(c, at)
    case First => FirstStep(c, l, at, rg, mem);
    case Loop(_) => LoopStep(c, l, at, rg, mem);
    case Loading(_, kb, _) =>
      if at.i < c.NK(kb) * D_TILE { LoadStep(c, l, at.side, kb, at.d0, at.i, rg, mem); }
      else { LoadEndStep(c, l, at.side, kb, at.d0, at.i, rg, mem); }
    case Scoring(_, _) => ScoreStep(c, l, at, rg, mem);
    case Soft(_) => SoftStep(c, l, at, rg, mem);
    case Adding(_, _) => AddStep(c, l, at, rg, mem);
  }

  // ---------- the barrier ----------

  // Nobody is at iteration count `total` with cells of the tile left over: each is some lane's.
  lemma {:induction false} AllCleared(c: Group, s: State, kb: nat)
    requires c.Valid() && s.Fits(c.tptg)
    requires forall l: nat :: l < c.tptg ==> s.at[l] == AtClear(kb) && LaneOk(c, l, s.at[l], s.rg[l], s.mem)
    ensures forall r: nat, tk: nat :: r < c.br && tk < c.bc ==> Cleared(s.mem, r, tk)
  {
    forall r: nat, tk: nat | r < c.br && tk < c.bc ensures Cleared(s.mem, r, tk) {
      var l := Cell(r, c.bc, tk) % c.tptg;
      assert LaneOk(c, l, s.at[l], s.rg[l], s.mem) && Turn(c.tptg, l, r, c.bc, tk);
      CellFits(c.br, c.bc, r, tk);
    }
  }

  lemma {:induction false} TileLoaded(c: Group, s: State, side: Side, kb: nat, d0: nat)
    requires c.Valid() && s.Fits(c.tptg)
    requires forall l: nat :: l < c.tptg ==> s.at[l] == AtLoad(side, kb, d0) && LaneOk(c, l, s.at[l], s.rg[l], s.mem)
    ensures AllLoaded(c, s.mem, side, kb, d0)
  {
    forall tk: nat, d: nat | tk < c.NK(kb) && d < D_TILE ensures StagedIs(c, s.mem, side, kb, d0, tk, d) {
      var l := Cell(tk, D_TILE, d) % c.tptg;
      assert LaneOk(c, l, s.at[l], s.rg[l], s.mem) && Turn(c.tptg, l, tk, D_TILE, d);
      CellFits(c.NK(kb), D_TILE, tk, d);
    }
  }

  // What the lanes of a released barrier find: the tile all of them filled.
  ghost predicate Filled(c: Group, mem: Mem, at: Place)
    requires c.Valid()
  {
    match at
    case AtClear(_) => forall r: nat, tk: nat :: r < c.br && tk < c.bc ==> Cleared(mem, r, tk)
    case AtLoad(side, kb, d0) => AllLoaded(c, mem, side, kb, d0)
    case _ => true
  }

  lemma {:induction false} PastZero(c: Group, l: nat, at: Place, rg: Regs, mem: Mem)
    requires c.Valid() && l < c.tptg && at.AtZero? && LaneOk(c, l, at, rg, mem)
    ensures LaneOk(c, l, Past(c, l, at), Opened(c, rg), mem)
  {
    BlockBounds(0, c.bc, c.Tkv());
    if l < |c.g.q| {
      forall d: nat | d < c.Dim() ensures AccAt(c, mem, l, d, rg.m, 0) {
        assert Read(mem, OaccAt(l, d)) == 0.0;
      }
    }
  }

  // The head of the slice loop, for K ...
  lemma {:induction false} IntoK(c: Group, l: nat, kb: nat, d0: nat, rg: Regs, mem: Mem)
    requires c.Valid() && l < c.tptg && InBlock(c, kb) && d0 % D_TILE == 0 && d0 <= c.Dim() && rg.s == 0.0
    requires l < |c.g.q| ==> SideOk(c, mem, l, rg, K, kb, d0)
    ensures LaneOk(c, l, TurnK(c, l, kb, d0), rg, mem)
  {
    NothingLoaded(c, mem, K, kb, d0, l);
  }

  // ... and for V: past the last slice every coordinate holds the whole block.
  lemma {:induction false} IntoV(c: Group, l: nat, kb: nat, d0: nat, rg: Regs, mem: Mem)
    requires c.Valid() && l < c.tptg && InBlock(c, kb) && d0 % D_TILE == 0 && d0 <= c.Dim()
    requires l < |c.g.q| ==> SideOk(c, mem, l, rg, V, kb, d0)
    ensures LaneOk(c, l, TurnV(c, l, kb, d0), rg, mem)
  {
    NothingLoaded(c, mem, V, kb, d0, l);
    if d0 == c.Dim() {
      BlockBounds(kb, c.bc, c.Tkv());
      if l < |c.g.q| {
        var next := c.T0(kb + 1);
        forall d: nat | d < c.Dim() ensures AccAt(c, mem, l, d, rg.m, next) {
          assert AccAt(c, mem, l, d, rg.m, KeysIn(c, kb, d0, 0, 0, d));
        }
      }
    }
  }

  lemma {:induction false} PastClear(c: Group, l: nat, at: Place, rg: Regs, mem: Mem)
    requires c.Valid() && l < c.tptg && at.AtClear? && LaneOk(c, l, at, rg, mem) && Filled(c, mem, at)
    ensures LaneOk(c, l, Past(c, l, at), Opened(c, rg), mem)
  {
    if l < |c.g.q| {
      forall tk: nat | tk < c.NK(at.kb) ensures RawAt(c, mem, l, at.kb, tk, 0) {
        assert Cleared(mem, l, tk);
      }
    }
    IntoK(c, l, at.kb, 0, Opened(c, rg), mem);
  }

  lemma {:induction false} PastLoadK(c: Group, l: nat, at: Place, rg: Regs, mem: Mem)
    requires c.Valid() && l < c.tptg && at.AtLoad? && at.side == K && LaneOk(c, l, at, rg, mem) && Filled(c, mem, at)
    ensures LaneOk(c, l, Past(c, l, at), Opened(c, rg), mem)
  {
    if l < |c.g.q| { assert ScoreOk(c, mem, l, Opened(c, rg), at.kb, at.d0, 0, 0); }
  }

  lemma {:induction false} PastLoadV(c: Group, l: nat, at: Place, rg: Regs, mem: Mem)
    requires c.Valid() && l < c.tptg && at.AtLoad? && at.side == V && LaneOk(c, l, at, rg, mem) && Filled(c, mem, at)
    ensures LaneOk(c, l, Past(c, l, at), Opened(c, rg), mem)
  {
    if l < |c.g.q| { assert MulOk(c, mem, l, Opened(c, rg), at.kb, at.d0, 0, 0); }
  }

  lemma {:induction false} PastScore(c: Group, l: nat, at: Place, rg: Regs, mem: Mem)
    requires c.Valid() && l < c.tptg && at.AtScore? && LaneOk(c, l, at, rg, mem)
    ensures LaneOk(c, l, Past(c, l, at), Opened(c, rg), mem)
  {
    IntoK(c, l, at.kb, at.d0 + D_TILE, Opened(c, rg), mem);
  }

  lemma {:induction false} PastSoft(c: Group, l: nat, at: Place, rg: Regs, mem: Mem)
    requires c.Valid() && l < c.tptg && at.AtSoft? && LaneOk(c, l, at, rg, mem)
    ensures LaneOk(c, l, Past(c, l, at), Opened(c, rg), mem)
  {
    IntoV(c, l, at.kb, 0, Opened(c, rg), mem);
  }

  lemma {:induction false} PastMul(c: Group, l: nat, at: Place, rg: Regs, mem: Mem)
    requires c.Valid() && l < c.tptg && at.AtMul? && LaneOk(c, l, at, rg, mem)
    ensures LaneOk(c, l, Past(c, l, at), Opened(c, rg), mem)
  {
    IntoV(c, l, at.kb, at.d0 + D_TILE, Opened(c, rg), mem);
  }

  // A released lane holds what its next place says.
  lemma {:induction false} PastOk(c: Group, l: nat, at: Place, rg: Regs, mem: Mem)
    requires c.Valid() && l < c.tptg && Waits(at) && LaneOk(c, l, at, rg, mem) && Filled(c, mem, at)
    ensures LaneOk(c, l, Past(c, l, at), Opened(c, rg), mem)
  {
    if at.AtZero? { PastZero(c, l, at, rg, mem); }
    else if at.AtClear? { PastClear(c, l, at, rg, mem); }
    else if at.AtScore? { PastScore(c, l, at, rg, mem); }
    else if at.AtSoft? { PastSoft(c, l, at, rg, mem); }
    else if at.AtMul? { PastMul(c, l, at, rg, mem); }
    else if at.side == K { PastLoadK(c, l, at, rg, mem); }
    else { PastLoadV(c, l, at, rg, mem); }
  }

  // Released lanes are in one phase again.
  lemma {:induction false} PastPhase(c: Group, l: nat, l': nat, at: Place)
    requires c.bc > 0 && Waits(at)
    ensures PhaseOf(c, Past(c, l, at)) == PhaseOf(c, Past(c, l', at))
  {
  }

  // ---------- what every step keeps ----------

  ghost predicate LanesOk(c: Group, s: State)
    requires c.Valid() && s.Fits(c.tptg)
  {
    forall l: nat {:trigger s.at[l]} :: l < c.tptg ==> LaneOk(c, l, s.at[l], s.rg[l], s.mem)
  }

  // All lanes are between the same two barriers.
  ghost predicate OnePhase(c: Group, s: State)
    requires c.Valid() && s.Fits(c.tptg)
  {
    forall l: nat :: l < c.tptg ==> PhaseOf(c, s.at[l]) == PhaseOf(c, s.at[0])
  }

  // Output element x is in the row of one of the lanes.
  ghost predicate OfGroup(c: Group, x: Word) {
    x.OutAt? && x.b == c.b && x.h == c.h && c.g.q0 <= x.t < c.g.q0 + |c.g.q| && x.t < c.g.q0 + c.tptg
  }

  // Every other output element is what it was.
  ghost predicate OutKept(c: Group, was: Mem, mem: Mem) {
    forall x: Word {:trigger Read(mem, x)} :: x.OutAt? && !OfGroup(c, x) ==> Read(mem, x) == Read(was, x)
  }

  ghost predicate Inv(c: Group, was: Mem, s: State) {
    c.Valid() && s.Fits(c.tptg) && LanesOk(c, s) && OnePhase(c, s) && OutKept(c, was, s.mem)
  }

  ghost predicate Start(c: Group, s: State) {
    c.Valid() && s.Fits(c.tptg) && forall l :: 0 <= l < c.tptg ==> s.at[l] == Begin
  }

  lemma {:induction false} StartInv(c: Group, s: State)
    requires Start(c, s)
    ensures Inv(c, s.mem, s)
  {
  }

  lemma {:induction false} MoveLane(c: Group, s: State, l: nat, l': nat)
    requires c.Valid() && s.Fits(c.tptg) && LanesOk(c, s) && OnePhase(c, s) && Enabled(c, s, Move(l)) && l' < c.tptg
    ensures var t := After(c, s, Move(l));
            LaneOk(c, l', t.at[l'], t.rg[l'], t.mem) && PhaseOf(c, t.at[l']) == PhaseOf(c, s.at[l'])
  {
    var t := After(c, s, Move(l));
    LaneStep(c, l, s.at[l], s.rg[l], s.mem);
    assert StepOk(c, l, s.at[l], s.rg[l], s.mem);
    if l' != l {
      var ph := PhaseOf(c, s.at[l']);
      assert ph == PhaseOf(c, s.at[l]);
      forall x {:trigger Read(t.mem, x)} | Touches(c, ph, l', x) ensures Read(s.mem, x) == Read(t.mem, x) {
        var put := Next(c, s, l).put;
        if put.Put? && put.x == x { MineIsMine(c, ph, l, l', x); }
      }
      LaneFrame(c, l', s.at[l'], s.rg[l'], s.mem, t.mem);
    }
  }

  // Lanes that open a barrier filled the tile it guards.
  lemma {:induction false} BarrierFilled(c: Group, s: State)
    requires c.Valid() && s.Fits(c.tptg) && LanesOk(c, s) && Enabled(c, s, Release)
    ensures Filled(c, s.mem, s.at[0])
  {
    forall l: nat | l < c.tptg ensures s.at[l] == s.at[0] && LaneOk(c, l, s.at[l], s.rg[l], s.mem) {}
    match s.at[0]
    case AtClear(kb) => AllCleared(c, s, kb);
    case AtLoad(side, kb, d0) => TileLoaded(c, s, side, kb, d0);
    case _ =>
  }

  lemma {:induction false} ReleaseKeeps(c: Group, was: Mem, s: State)
    requires Inv(c, was, s) && Enabled(c, s, Release)
    ensures Inv(c, was, After(c, s, Release))
  {
    var t := After(c, s, Release);
    BarrierFilled(c, s);
    forall l: nat | l < c.tptg ensures LaneOk(c, l, t.at[l], t.rg[l], t.mem) {
      assert s.at[l] == s.at[0];
      PastOk(c, l, s.at[0], s.rg[l], s.mem);
    }
    forall l: nat | l < c.tptg ensures PhaseOf(c, t.at[l]) == PhaseOf(c, t.at[0]) {
      PastPhase(c, l, 0, s.at[0]);
    }
  }

  // A step writes no output element outside the group's rows.
  lemma {:induction false} MoveOut(c: Group, was: Mem, s: State, l: nat)
    requires Inv(c, was, s) && Enabled(c, s, Move(l))
    ensures OutKept(c, was, After(c, s, Move(l)).mem)
  {
    var t, put := After(c, s, Move(l)), Next(c, s, l).put;
    LaneStep(c, l, s.at[l], s.rg[l], s.mem);
    assert StepOk(c, l, s.at[l], s.rg[l], s.mem);
    forall x: Word {:trigger Read(t.mem, x)} | x.OutAt? && !OfGroup(c, x) ensures Read(t.mem, x) == Read(was, x) {
      assert Read(s.mem, x) == Read(was, x) && (put.Put? ==> put.x != x);
    }
  }

  // Main: whichever lane moves next, and when a barrier opens, the invariant survives.
  lemma {:induction false} StepKeeps(c: Group, was: Mem, s: State, a: Action)
    requires Inv(c, was, s) && Enabled(c, s, a)
    ensures Inv(c, was, After(c, s, a))
  {
    if a == Release {
      ReleaseKeeps(c, was, s);
    } else {
      var t := After(c, s, a);
      forall l: nat | l < c.tptg
        ensures LaneOk(c, l, t.at[l], t.rg[l], t.mem) && PhaseOf(c, t.at[l]) == PhaseOf(c, s.at[l])
      {
        MoveLane(c, s, a.l, l);
      }
      MoveOut(c, was, s, a.l);
    }
  }

  // ---------- whole runs ----------

  // ss are the states a run goes through, moves what happens between them.
  ghost predicate Run(c: Group, ss: seq<State>, moves: seq<Action>) {
    |ss| == |moves| + 1 && Start(c, ss[0])
    && forall i: nat {:trigger moves[i]} :: i < |moves| ==>
         ss[i].Fits(c.tptg) && Enabled(c, ss[i], moves[i]) && ss[i + 1] == After(c, ss[i], moves[i])
  }

  lemma {:induction false} RunInv(c: Group, ss: seq<State>, moves: seq<Action>, i: nat)
    requires Run(c, ss, moves) && i < |ss|
    ensures Inv(c, ss[0].mem, ss[i])
  {
    if i == 0 {
      StartInv(c, ss[0]);
    } else {
      RunInv(c, ss, moves, i - 1);
      assert Enabled(c, ss[i - 1], moves[i - 1]);
      StepKeeps(c, ss[0].mem, ss[i - 1], moves[i - 1]);
    }
  }

  // Lane l's step at i writes x; lane l' reads or writes it at its step at j.
  ghost predicate Writes(c: Group, s: State, l: nat, x: Word)
    requires c.tptg > 0 && c.bc > 0 && s.Fits(c.tptg)
  {
    Enabled(c, s, Move(l)) && Next(c, s, l).put.Put? && Next(c, s, l).put.x == x
  }

  ghost predicate Accesses(c: Group, s: State, l: nat, x: Word)
    requires c.tptg > 0 && c.bc > 0 && s.Fits(c.tptg)
  {
    Writes(c, s, l, x) || (l < c.tptg && x in Reads(c, l, s.at[l]))
  }

  // What a step reads is the lane's own or shared in its phase.
  lemma {:induction false} ReadsTouch(c: Group, l: nat, at: Place, rg: Regs, mem: Mem, x: Word)
    requires c.Valid() && LaneOk(c, l, at, rg, mem) && x in Reads(c, l, at)
    ensures Touches(c, PhaseOf(c, at), l, x) && InArray(c, x)
  {
  }

  lemma {:induction false} AccessTouches(c: Group, was: Mem, s: State, l: nat, x: Word)
    requires Inv(c, was, s) && Accesses(c, s, l, x)
    ensures l < c.tptg && Touches(c, PhaseOf(c, s.at[l]), l, x) && InArray(c, x)
    ensures Writes(c, s, l, x) ==> Mine(c, PhaseOf(c, s.at[l]), l, x)
  {
    assert LaneOk(c, l, s.at[l], s.rg[l], s.mem);
    if Writes(c, s, l, x) {
      LaneStep(c, l, s.at[l], s.rg[l], s.mem);
      assert StepOk(c, l, s.at[l], s.rg[l], s.mem);
    } else {
      ReadsTouch(c, l, s.at[l], s.rg[l], s.mem, x);
    }
  }

  // Without a barrier between, the phase is the same.
  lemma {:induction false} SamePhase(c: Group, ss: seq<State>, moves: seq<Action>, i: nat, j: nat)
    requires Run(c, ss, moves) && i <= j < |ss|
    requires forall k :: i <= k < j ==> moves[k] != Release
    ensures ss[i].Fits(c.tptg) && ss[j].Fits(c.tptg)
    ensures PhaseOf(c, ss[i].at[0]) == PhaseOf(c, ss[j].at[0])
    decreases j
  {
    RunInv(c, ss, moves, i);
    if i < j {
      SamePhase(c, ss, moves, i, j - 1);
      RunInv(c, ss, moves, j - 1);
      assert Enabled(c, ss[j - 1], moves[j - 1]);
      MoveLane(c, ss[j - 1], moves[j - 1].l, 0);
    }
  }

  // Main: no race. A word one lane writes at i another lane does not touch at j before or after, unless every lane
  // passed a barrier between.
  lemma {:induction false} NoRace(c: Group, ss: seq<State>, moves: seq<Action>, i: nat, j: nat, l: nat, l': nat, x: Word)
    requires Run(c, ss, moves) && i < |ss| && j < |ss| && l != l'
    requires ss[i].Fits(c.tptg) && ss[j].Fits(c.tptg) && Writes(c, ss[i], l, x) && Accesses(c, ss[j], l', x)
    ensures exists k :: (i <= k < j || j <= k < i) && moves[k] == Release
  {
    RunInv(c, ss, moves, i);
    RunInv(c, ss, moves, j);
    AccessTouches(c, ss[0].mem, ss[i], l, x);
    AccessTouches(c, ss[0].mem, ss[j], l', x);
    if forall k :: (i <= k < j || j <= k < i) ==> moves[k] != Release {
      if i <= j { SamePhase(c, ss, moves, i, j); } else { SamePhase(c, ss, moves, j, i); }
      MineIsMine(c, PhaseOf(c, ss[i].at[l]), l, l', x);
    }
  }

  // At a barrier or past the end, a place is fixed by its phase, up to the early returns.
  lemma {:induction false} WaitingPlace(c: Group, l: nat, l': nat, at: Place, at': Place, rg: Regs, rg': Regs, mem: Mem)
    requires c.Valid() && LaneOk(c, l, at, rg, mem) && LaneOk(c, l', at', rg', mem) && PhaseOf(c, at) == PhaseOf(c, at')
    requires (Waits(at) || Over(at)) && (Waits(at') || Over(at'))
    ensures at == at'
  {
  }

  // Main: no run gets stuck before every lane is through: whenever no lane can move on its own, all are at the same
  // barrier and it opens.
  lemma {:induction false} NeverStuck(c: Group, was: Mem, s: State) returns (a: Action)
    requires Inv(c, was, s) && exists l :: 0 <= l < c.tptg && !Over(s.at[l])
    ensures Enabled(c, s, a)
  {
    if l :| 0 <= l < c.tptg && !Waits(s.at[l]) && !Over(s.at[l]) {
      a := Move(l);
    } else {
      a := Release;
      forall l: nat | l < c.tptg ensures s.at[l] == s.at[0] {
        assert LaneOk(c, l, s.at[l], s.rg[l], s.mem) && LaneOk(c, 0, s.at[0], s.rg[0], s.mem);
        WaitingPlace(c, l, 0, s.at[l], s.at[0], s.rg[l], s.rg[0], s.mem);
      }
    }
  }

  // ---------- what a complete run leaves ----------

  ghost function ViewOf(g: Tile): (w: View)
    requires g.Valid()
    ensures Sees(g, w)
  {
    View(seq(|g.q|, r requires 0 <= r < |g.q| => g.Row(r)), seq(g.a.headDim, d requires 0 <= d < g.a.headDim => g.Col(d)),
         |g.k|)
  }

  // c is threadgroup (q_block, bh) of the dispatch p.
  ghost predicate IsGroup(c: Group, p: Problem, q_block: nat, bh: nat)
    requires p.Valid()
  {
    c.Valid() && c.g.a == p.a && c.b == bh / p.a.heads && c.h == bh % p.a.heads && c.g.q0 == q_block * c.br
    && c.g.k == p.KvVecs(p.k, c.b, c.h) && c.g.v == p.KvVecs(p.v, c.b, c.h)
    && forall r: nat | r < |c.g.q| :: c.g.q[r] == p.QVec(c.b, c.h, c.g.q0 + r)
  }

  lemma {:induction false} GroupExists(p: Problem, exp: real -> real, negMax: real, store: real -> real, q_block: nat,
                                       bh: nat, br: nat, bc: nat, tptg: nat) returns (c: Group)
    requires p.Valid() && p.a.headDim % D_TILE == 0 && IsExp(exp) && bh < p.a.batch * p.a.heads
    requires 0 < br && 0 < bc && 0 < tptg
    ensures IsGroup(c, p, q_block, bh) && c.br == br && c.bc == bc && c.tptg == tptg
    ensures c.exp == exp && c.negMax == negMax && c.store == store
  {
    SplitBatchHead(bh, p.a.heads, p.a.batch);
    var b, h, q0 := bh / p.a.heads, bh % p.a.heads, q_block * br;
    var g := Tile(p.a, q0, [], p.KvVecs(p.k, b, h), p.KvVecs(p.v, b, h));
    if q0 < p.a.tq {
      g := TileOf(p, b, h, q0, if br < p.a.tq - q0 then br else p.a.tq - q0);
    }
    c := Group(g, ViewOf(g), b, h, br, bc, tptg, exp, negMax, store);
  }

  ghost predicate Complete(c: Group, s: State) {
    s.Fits(c.tptg) && forall l :: 0 <= l < c.tptg ==> Over(s.at[l])
  }

  // A lane that is through has left its row.
  lemma {:induction false} LaneLeaves(c: Group, s: State, l: nat, d: nat)
    requires c.Valid() && Complete(c, s) && LanesOk(c, s) && l < c.tptg && l < |c.g.q| && d < c.Dim()
    ensures Read(s.mem, OutAt(c.b, c.h, c.g.q0 + l, d)) == Final(c, l, d)
  {
    assert LaneOk(c, l, s.at[l], s.rg[l], s.mem);
  }

  // What it leaves is the plain masked attention.
  lemma {:induction false} FinalIsPlain(c: Group, p: Problem, q_block: nat, bh: nat, l: nat, d: nat)
    requires p.Valid() && IsGroup(c, p, q_block, bh) && l < |c.g.q| && d < c.Dim()
    ensures c.g.q0 + l < p.a.tq && Final(c, l, d) == c.store(p.Plain(c.exp, c.b, c.h, c.g.q0 + l, d))
  {
    assert c.w.rows[l] == c.g.Row(l) && c.w.cols[d] == c.g.Col(d);
    ReferenceIsAttend(c.exp, c.g.Row(l), c.g.Col(d));
  }

  // The rows a threadgroup owns are its lanes' rows.
  lemma {:induction false} OwnsIs(c: Group, p: Problem, q_block: nat, bh: nat, b: nat, h: nat, t: nat, d: nat)
    requires p.Valid() && IsGroup(c, p, q_block, bh) && InRange(p.a, b, h, t, d)
    ensures Owns(p.a, q_block, bh, c.br, c.tptg, b, h, t) <==> OfGroup(c, OutAt(b, h, t, d))
  {
  }

  // Main: every complete run of the lanes, whatever the interleaving and whatever threadgroup memory held, leaves what
  // FlashAttnFa2Tiled leaves: the plain masked attention in the rows the threadgroup owns, every other element as it was.
  lemma {:induction false} CompleteRunIsPlain(c: Group, p: Problem, q_block: nat, bh: nat, ss: seq<State>,
                                              moves: seq<Action>, b: nat, h: nat, t: nat, d: nat)
    requires p.Valid() && IsGroup(c, p, q_block, bh) && InRange(p.a, b, h, t, d)
    requires Run(c, ss, moves) && Complete(c, ss[|moves|])
    ensures Read(ss[|moves|].mem, OutAt(b, h, t, d)) ==
            if Owns(p.a, q_block, bh, c.br, c.tptg, b, h, t) then c.store(p.Plain(c.exp, b, h, t, d))
            else Read(ss[0].mem, OutAt(b, h, t, d))
  {
    var s := ss[|moves|];
    RunInv(c, ss, moves, |moves|);
    OwnsIs(c, p, q_block, bh, b, h, t, d);
    if OfGroup(c, OutAt(b, h, t, d)) {
      LaneLeaves(c, s, t - c.g.q0, d);
      FinalIsPlain(c, p, q_block, bh, t - c.g.q0, d);
    }
  }
}
