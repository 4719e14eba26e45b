// The lanes of one attention threadgroup (kernels/attn_fa2.h) as a machine. Every lane walks the body at its own pace,
// one access to threadgroup memory or to the output a step, and evaluates every branch itself; only a barrier makes it
// wait for the others.
module AttnLanes {
  import opened OnlineSoftmax
  import opened Layout
  import opened Lanes
  import opened AttnMask
  import opened AttnFa2

  // One threadgroup: its tile (g.q are the live rows), what those rows see, and the launch's sizes.
  datatype Group = Group(g: Tile, w: View, b: nat, h: nat, br: nat, bc: nat, tptg: nat,
                         exp: real -> real, negMax: real, store: real -> real)
  {
    ghost predicate Valid() {
      g.Valid() && Sees(g, w) && IsExp(exp) && g.a.headDim % D_TILE == 0 && g.a.Valid()
      && b < g.a.batch && h < g.a.heads && 0 < br && 0 < bc && 0 < tptg
      && |g.q| == if g.q0 >= g.a.tq then 0 else if br < g.a.tq - g.q0 then br else g.a.tq - g.q0
    }

    function Dim(): nat { g.a.headDim }

    function Tkv(): nat { |g.k| }

    predicate RowValid(l: nat) { l < |g.q| }

    // The query position a lane works at.
    function TQ(l: nat): nat { g.q0 + if RowValid(l) then l else 0 }

    function Blocks(): nat
      requires bc > 0
    {
      Tkv() / bc + if Tkv() % bc != 0 then 1 else 0
    }

    // First key of block kb and how many keys it has.
    function T0(kb: nat): (t: nat)
      ensures t <= Tkv()
    {
      BlockStart(kb, bc, Tkv())
    }

    function NK(kb: nat): (n: nat)
      ensures T0(kb) + n <= Tkv() && n <= bc
    {
      if bc < Tkv() - T0(kb) then bc else Tkv() - T0(kb)
    }

    predicate Skipped(kb: nat) {
      |g.q| > 0 && NK(kb) > 0 && Skips(g.a, g.q0, |g.q|, T0(kb), NK(kb))
    }

    // The block a lane at the head of block kb runs next, or the block count.
    function NextRun(kb: nat): nat
      requires bc > 0
      decreases Blocks() - kb
    {
      if kb < Blocks() && Skipped(kb) then NextRun(kb + 1) else kb
    }
  }

  // ---------- memory ----------

  datatype Side = K | V

  // The words lanes share: threadgroup arrays Oacc, scores, Ks and Vs, and the output.
  datatype Word = OaccAt(r: nat, d: nat) | ScoreAt(r: nat, tk: nat) | StagedAt(side: Side, tk: nat, d: nat)
                | OutAt(b: nat, h: nat, t: nat, d: nat)

  type Mem = map<Word, real>

  function Read(mem: Mem, x: Word): real { if x in mem then mem[x] else 0.0 }

  predicate InArray(c: Group, x: Word) {
    match x
    case OaccAt(r, d) => r < c.br && d < c.Dim()
    case ScoreAt(r, tk) => r < c.br && tk < c.bc
    case StagedAt(_, tk, d) => tk < c.bc && d < D_TILE
    case OutAt(b, h, t, d) => b < c.g.a.batch && h < c.g.a.heads && t < c.g.a.tq && d < c.Dim()
  }

  // The word's index in its flat array, and the array's length.
  function Address(c: Group, x: Word): nat {
    match x
    case OaccAt(r, d) => Cell(r, c.Dim(), d)
    case ScoreAt(r, tk) => Cell(r, c.bc, tk)
    case StagedAt(_, tk, d) => Cell(tk, D_TILE, d)
    case OutAt(b, h, t, d) => c.g.a.QElem(b, h, t, d)
  }

  function Length(c: Group, x: Word): nat {
    match x
    case OaccAt(_, _) => c.br * c.Dim()
    case ScoreAt(_, _) => c.br * c.bc
    case StagedAt(_, _, _) => c.bc * D_TILE
    case OutAt(_, _, _, _) => OutSize(c.g.a)
  }

  predicate SameArray(x: Word, y: Word) {
    match x
    case OaccAt(_, _) => y.OaccAt?
    case ScoreAt(_, _) => y.ScoreAt?
    case StagedAt(s, _, _) => y.StagedAt? && y.side == s
    case OutAt(_, _, _, _) => y.OutAt?
  }

  // Two words of an array are two addresses inside it, so lanes that touch different words do not meet.
  lemma {:induction false} AddressesDiffer(c: Group, x: Word, y: Word)
    requires InArray(c, x) && InArray(c, y) && SameArray(x, y)
    ensures Address(c, x) < Length(c, x)
    ensures Address(c, x) == Address(c, y) <==> x == y
  {
    match x
    case OaccAt(r, d) =>
      CellFits(c.br, c.Dim(), r, d);
      if Address(c, x) == Address(c, y) { CellInjective(c.Dim(), r, d, y.r, y.d); }
    case ScoreAt(r, tk) =>
      CellFits(c.br, c.bc, r, tk);
      if Address(c, x) == Address(c, y) { CellInjective(c.bc, r, tk, y.r, y.tk); }
    case StagedAt(_, tk, d) =>
      CellFits(c.bc, D_TILE, tk, d);
      if Address(c, x) == Address(c, y) { CellInjective(D_TILE, tk, d, y.tk, y.d); }
    case OutAt(b, h, t, d) =>
      var a := c.g.a;
      RowAddrFits(b, t, h, a.batch, a.tq, a.heads, a.headDim);
      if Address(c, x) == Address(c, y) {
        RowAddrInjective(b, t, h, d, y.b, y.t, y.h, y.d, a.tq, a.heads, a.headDim);
      }
  }

  // ---------- one lane ----------

  // Where a lane is in the body. At... is a barrier; Gone is one of the two early returns.
  datatype Place =
    | Begin | Blank(d: nat) | Gone
    | Zero(d: nat) | AtZero
    | Head(kb: nat) | Clear(kb: nat, i: nat) | AtClear(kb: nat)
    | Load(side: Side, kb: nat, d0: nat, i: nat) | AtLoad(side: Side, kb: nat, d0: nat)
    | Score(kb: nat, d0: nat, tk: nat, d: nat) | AtScore(kb: nat, d0: nat)
    | Mask(kb: nat, tk: nat) | Weigh(kb: nat, tk: nat) | Scale(kb: nat, d: nat) | AtSoft(kb: nat)
    | Pick(kb: nat, d0: nat, tk: nat) | Mul(kb: nat, d0: nat, tk: nat, d: nat) | AtMul(kb: nat, d0: nat)
    | Store(d: nat) | Done

  predicate Waits(at: Place) {
    at.AtZero? || at.AtClear? || at.AtLoad? || at.AtScore? || at.AtSoft? || at.AtMul?
  }

  predicate Over(at: Place) { at.Gone? || at.Done? }

  // A lane's own variables: m_i, l_i, s, m_block, m_new, alpha, l_block and p.
  datatype Regs = Regs(m: real, l: real, s: real, top: real, mNew: real, alpha: real, mass: real, p: real)

  datatype Put = Nothing | Put(x: Word, v: real)

  datatype Effect = Effect(at: Place, rg: Regs, put: Put)

  // Device reads of Q, K and V, which nobody writes.
  function At(vs: seq<seq<real>>, j: nat, d: nat): real {
    if j < |vs| && d < |vs[j]| then vs[j][d] else 0.0
  }

  function Source(c: Group, side: Side): seq<seq<real>> { if side == K then c.g.k else c.g.v }

  function StepBegin(c: Group, l: nat, rg: Regs): Effect {
    var rg' := rg.(m := c.negMax, l := 0.0);
    if c.g.q0 >= c.g.a.tq then Effect(Gone, rg', Nothing)
    else if c.Tkv() == 0 then Effect(if c.RowValid(l) then Blank(0) else Gone, rg', Nothing)
    else Effect(if l < c.br then Zero(0) else AtZero, rg', Nothing)
  }

  function StepHead(c: Group, l: nat, kb: nat, rg: Regs): Effect
    requires c.bc > 0
  {
    if kb < c.Blocks() then Effect(if c.Skipped(kb) then Head(kb + 1) else Clear(kb, l), rg, Nothing)
    else Effect(if c.RowValid(l) then Store(0) else Done, rg, Nothing)
  }

  function StepClear(c: Group, kb: nat, i: nat, rg: Regs): Effect
    requires c.bc > 0
  {
    if i < c.br * c.bc then Effect(Clear(kb, i + c.tptg), rg, Put(ScoreAt(i / c.bc, i % c.bc), 0.0))
    else Effect(AtClear(kb), rg, Nothing)
  }

  function StepLoad(c: Group, side: Side, kb: nat, d0: nat, i: nat, rg: Regs): Effect {
    if i < c.NK(kb) * D_TILE then
      Effect(Load(side, kb, d0, i + c.tptg), rg,
             Put(StagedAt(side, i / D_TILE, i % D_TILE), At(Source(c, side), c.T0(kb) + i / D_TILE, d0 + i % D_TILE)))
    else Effect(AtLoad(side, kb, d0), rg, Nothing)
  }

  function StepScore(c: Group, l: nat, kb: nat, d0: nat, tk: nat, d: nat, rg: Regs, mem: Mem): Effect {
    if tk >= c.NK(kb) then Effect(AtScore(kb, d0), rg, Nothing)
    else if d < D_TILE then
      Effect(Score(kb, d0, tk, d + 1), rg.(s := rg.s + Scaled(At(c.g.q, l, d0 + d), Read(mem, StagedAt(K, tk, d)))), Nothing)
    else
      Effect(Score(kb, d0, tk + 1, 0), rg.(s := 0.0), Put(ScoreAt(l, tk), Read(mem, ScoreAt(l, tk)) + rg.s))
  }

  function StepMask(c: Group, l: nat, kb: nat, tk: nat, rg: Regs, mem: Mem): Effect {
    if tk < c.NK(kb) then
      var score := if KernelLive(c.g.a, c.TQ(l), c.T0(kb) + tk) then Scaled(Read(mem, ScoreAt(l, tk)), c.g.a.scale) else c.negMax;
      Effect(Mask(kb, tk + 1), rg.(top := if rg.top > score then rg.top else score), Put(ScoreAt(l, tk), score))
    else
      var mNew := if rg.m > rg.top then rg.m else rg.top;
      Effect(Weigh(kb, 0), rg.(mNew := mNew, alpha := if rg.l > 0.0 then c.exp(rg.m - mNew) else 0.0, mass := 0.0), Nothing)
  }

  function StepWeigh(c: Group, l: nat, kb: nat, tk: nat, rg: Regs, mem: Mem): Effect {
    if tk < c.NK(kb) then
      var p := if KernelLive(c.g.a, c.TQ(l), c.T0(kb) + tk) then c.exp(Read(mem, ScoreAt(l, tk)) - rg.mNew) else 0.0;
      Effect(Weigh(kb, tk + 1), rg.(mass := rg.mass + p), Put(ScoreAt(l, tk), p))
    else Effect(Scale(kb, 0), rg, Nothing)
  }

  function StepScale(c: Group, l: nat, kb: nat, d: nat, rg: Regs, mem: Mem): Effect {
    if d < c.Dim() then Effect(Scale(kb, d + 1), rg, Put(OaccAt(l, d), Scaled(Read(mem, OaccAt(l, d)), rg.alpha)))
    else Effect(AtSoft(kb), rg.(l := rg.l * rg.alpha + rg.mass, m := rg.mNew), Nothing)
  }

  function StepPick(c: Group, l: nat, kb: nat, d0: nat, tk: nat, rg: Regs, mem: Mem): Effect {
    if tk < c.NK(kb) then Effect(Mul(kb, d0, tk, 0), rg.(p := Read(mem, ScoreAt(l, tk))), Nothing)
    else Effect(AtMul(kb, d0), rg, Nothing)
  }

  function StepMul(l: nat, kb: nat, d0: nat, tk: nat, d: nat, rg: Regs, mem: Mem): Effect {
    if d < D_TILE then
      Effect(Mul(kb, d0, tk, d + 1), rg,
             Put(OaccAt(l, d0 + d), Read(mem, OaccAt(l, d0 + d)) + Scaled(rg.p, Read(mem, StagedAt(V, tk, d)))))
    else Effect(Pick(kb, d0, tk + 1), rg, Nothing)
  }

  function StepStore(c: Group, l: nat, d: nat, rg: Regs, mem: Mem): Effect {
    if d < c.Dim() then
      var inv := if rg.l > 0.0 then 1.0 / rg.l else 0.0;
      Effect(Store(d + 1), rg, Put(OutAt(c.b, c.h, c.TQ(l), d), c.store(Scaled(Read(mem, OaccAt(l, d)), inv))))
    else Effect(Done, rg, Nothing)
  }

  // The next step of lane l.
  function Step(c: Group, l: nat, at: Place, rg: Regs, mem: Mem): Effect
    requires c.bc > 0 && !Waits(at) && !Over(at)
  {
    match at
    case Begin => StepBegin(c, l, rg)
    case Blank(d) =>
      if d < c.Dim() then Effect(Blank(d + 1), rg, Put(OutAt(c.b, c.h, c.TQ(l), d), c.store(0.0)))
      else Effect(Gone, rg, Nothing)
    case Zero(d) =>
      if d < c.Dim() then Effect(Zero(d + 1), rg, Put(OaccAt(l, d), 0.0)) else Effect(AtZero, rg, Nothing)
    case Head(kb) => StepHead(c, l, kb, rg)
    case Clear(kb, i) => StepClear(c, kb, i, rg)
    case Load(side, kb, d0, i) => StepLoad(c, side, kb, d0, i, rg)
    case Score(kb, d0, tk, d) => StepScore(c, l, kb, d0, tk, d, rg, mem)
    case Mask(kb, tk) => StepMask(c, l, kb, tk, rg, mem)
    case Weigh(kb, tk) => StepWeigh(c, l, kb, tk, rg, mem)
    case Scale(kb, d) => StepScale(c, l, kb, d, rg, mem)
    case Pick(kb, d0, tk) => StepPick(c, l, kb, d0, tk, rg, mem)
    case Mul(kb, d0, tk, d) => StepMul(l, kb, d0, tk, d, rg, mem)
    case Store(d) => StepStore(c, l, d, rg, mem)
  }

  // The head of the slice loop over d0: another slice of K, or on to the softmax ...
  function TurnK(c: Group, l: nat, kb: nat, d0: nat): Place {
    if d0 < c.Dim() then Load(K, kb, d0, l) else if c.RowValid(l) then Mask(kb, 0) else AtSoft(kb)
  }

  // ... another slice of V, or on to the next block.
  function TurnV(c: Group, l: nat, kb: nat, d0: nat): Place {
    if d0 < c.Dim() then Load(V, kb, d0, l) else Head(kb + 1)
  }

  // Where lane l goes when the barrier lets it.
  function Past(c: Group, l: nat, at: Place): Place
    requires Waits(at)
  {
    match at
    case AtZero => Head(0)
    case AtClear(kb) => TurnK(c, l, kb, 0)
    case AtLoad(side, kb, d0) =>
      if side == K then if c.RowValid(l) then Score(kb, d0, 0, 0) else AtScore(kb, d0)
      else if c.RowValid(l) then Pick(kb, d0, 0) else AtMul(kb, d0)
    case AtScore(kb, d0) => TurnK(c, l, kb, d0 + D_TILE)
    case AtSoft(kb) => TurnV(c, l, kb, 0)
    case AtMul(kb, d0) => TurnV(c, l, kb, d0 + D_TILE)
  }

  // ---------- the threadgroup ----------

  datatype State = State(at: seq<Place>, rg: seq<Regs>, mem: Mem)
  {
    predicate Fits(n: nat) { |at| == |rg| == n }
  }

  datatype Action = Move(l: nat) | Release

  // A lane not at a barrier can always move; a barrier opens when every lane is at that very barrier, loop counters
  // included.
  predicate Enabled(c: Group, s: State, a: Action)
    requires c.tptg > 0 && s.Fits(c.tptg)
  {
    match a
    case Move(l) => l < c.tptg && !Waits(s.at[l]) && !Over(s.at[l])
    case Release => Waits(s.at[0]) && forall l :: 0 <= l < c.tptg ==> s.at[l] == s.at[0]
  }

  function Written(mem: Mem, put: Put): Mem {
    if put.Put? then mem[put.x := put.v] else mem
  }

  // The next loop's variables start afresh.
  function Opened(c: Group, rg: Regs): Regs { rg.(s := 0.0, top := c.negMax) }

  // What the next step of lane l does.
  function Next(c: Group, s: State, l: nat): Effect
    requires c.tptg > 0 && c.bc > 0 && s.Fits(c.tptg) && Enabled(c, s, Move(l))
  {
    Step(c, l, s.at[l], s.rg[l], s.mem)
  }

  function After(c: Group, s: State, a: Action): (s': State)
    requires c.tptg > 0 && c.bc > 0 && s.Fits(c.tptg) && Enabled(c, s, a)
    ensures s'.Fits(c.tptg)
  {
    match a
    case Move(l) =>
      var e := Next(c, s, l);
      State(s.at[l := e.at], s.rg[l := e.rg], Written(s.mem, e.put))
    case Release =>
      State(seq(c.tptg, l requires 0 <= l < c.tptg => Past(c, l, s.at[0])),
            seq(c.tptg, l requires 0 <= l < c.tptg => Opened(c, s.rg[l])), s.mem)
  }

  // ---------- phases and footprints ----------

  // What lies between two barriers. A lane heading for block kb is in the phase of the block it will run.
  datatype Phase = First | Loop(kb: nat) | Loading(side: Side, kb: nat, d0: nat) | Scoring(kb: nat, d0: nat) | Soft(kb: nat)
                 | Adding(kb: nat, d0: nat)

  function PhaseOf(c: Group, at: Place): Phase
    requires c.bc > 0
  {
    match at
    case Begin => First
    case Blank(_) => First
    case Gone => First
    case Zero(_) => First
    case AtZero => First
    case Head(kb) => Loop(c.NextRun(kb))
    case Clear(kb, _) => Loop(kb)
    case AtClear(kb) => Loop(kb)
    case Load(side, kb, d0, _) => Loading(side, kb, d0)
    case AtLoad(side, kb, d0) => Loading(side, kb, d0)
    case Score(kb, d0, _, _) => Scoring(kb, d0)
    case AtScore(kb, d0) => Scoring(kb, d0)
    case Mask(kb, _) => Soft(kb)
    case Weigh(kb, _) => Soft(kb)
    case Scale(kb, _) => Soft(kb)
    case AtSoft(kb) => Soft(kb)
    case Pick(kb, d0, _) => Adding(kb, d0)
    case Mul(kb, d0, _, _) => Adding(kb, d0)
    case AtMul(kb, d0) => Adding(kb, d0)
    case Store(_) => Loop(c.Blocks())
    case Done => Loop(c.Blocks())
  }

  // Iteration (row, col) of a loop strided over the lanes is lane l's.
  predicate Turn(tptg: nat, l: nat, row: nat, width: nat, col: nat)
    requires tptg > 0
  {
    Cell(row, width, col) % tptg == l
  }

  // The words only lane l may touch in a phase: its row, or its share of the loop strided over the lanes.
  predicate Mine(c: Group, ph: Phase, l: nat, x: Word)
    requires c.tptg > 0
  {
    match x
    case OaccAt(r, _) => r == l
    case ScoreAt(r, tk) => if ph.Loop? then Turn(c.tptg, l, r, c.bc, tk) else r == l
    case StagedAt(side, tk, d) => ph.Loading? && ph.side == side && Turn(c.tptg, l, tk, D_TILE, d)
    case OutAt(b, h, t, _) => b == c.b && h == c.h && c.RowValid(l) && t == c.g.q0 + l
  }

  // The words every lane may read in a phase, and nobody may write.
  predicate Shared(ph: Phase, x: Word) {
    x.StagedAt? && ((ph.Scoring? && x.side == K) || (ph.Adding? && x.side == V))
  }

  predicate Touches(c: Group, ph: Phase, l: nat, x: Word)
    requires c.tptg > 0
  {
    Mine(c, ph, l, x) || Shared(ph, x)
  }

  // The words the next step of a lane reads.
  function Reads(c: Group, l: nat, at: Place): set<Word> {
    match at
    case Score(kb, d0, tk, d) =>
      if tk >= c.NK(kb) then {} else if d < D_TILE then {StagedAt(K, tk, d)} else {ScoreAt(l, tk)}
    case Mask(kb, tk) => if tk < c.NK(kb) then {ScoreAt(l, tk)} else {}
    case Weigh(kb, tk) => if tk < c.NK(kb) then {ScoreAt(l, tk)} else {}
    case Scale(_, d) => if d < c.Dim() then {OaccAt(l, d)} else {}
    case Pick(kb, _, tk) => if tk < c.NK(kb) then {ScoreAt(l, tk)} else {}
    case Mul(_, d0, tk, d) => if d < D_TILE then {OaccAt(l, d0 + d), StagedAt(V, tk, d)} else {}
    case Store(d) => if d < c.Dim() then {OaccAt(l, d)} else {}
    case _ => {}
  }

  lemma {:induction false} SameWord(seen: set<Word>, mem: Mem, mem': Mem, x: Word)
    requires x in seen && forall y :: y in seen ==> Read(mem, y) == Read(mem', y)
    ensures Read(mem, x) == Read(mem', x)
  {
  }

  // A step depends on memory only through the words it reads.
  lemma {:induction false} StepReadsOnly(c: Group, l: nat, at: Place, rg: Regs, mem: Mem, mem': Mem)
    requires c.bc > 0 && !Waits(at) && !Over(at)
    requires forall x :: x in Reads(c, l, at) ==> Read(mem, x) == Read(mem', x)
    ensures Step(c, l, at, rg, mem) == Step(c, l, at, rg, mem')
  {
    var seen := Reads(c, l, at);
    match at
    case Score(kb, d0, tk, d) =>
      if tk < c.NK(kb) {
        if d < D_TILE { SameWord(seen, mem, mem', StagedAt(K, tk, d)); } else { SameWord(seen, mem, mem', ScoreAt(l, tk)); }
      }
    case Mask(kb, tk) => if tk < c.NK(kb) { SameWord(seen, mem, mem', ScoreAt(l, tk)); }
    case Weigh(kb, tk) => if tk < c.NK(kb) { SameWord(seen, mem, mem', ScoreAt(l, tk)); }
    case Scale(_, d) => if d < c.Dim() { SameWord(seen, mem, mem', OaccAt(l, d)); }
    case Pick(kb, _, tk) => if tk < c.NK(kb) { SameWord(seen, mem, mem', ScoreAt(l, tk)); }
    case Mul(_, d0, tk, d) =>
      if d < D_TILE { SameWord(seen, mem, mem', OaccAt(l, d0 + d)); SameWord(seen, mem, mem', StagedAt(V, tk, d)); }
    case Store(d) => if d < c.Dim() { SameWord(seen, mem, mem', OaccAt(l, d)); }
    case _ =>
  }

  // What a lane may write in a phase, no other lane may touch in it.
  lemma {:induction false} MineIsMine(c: Group, ph: Phase, l: nat, l': nat, x: Word)
    requires c.tptg > 0 && l != l' && Mine(c, ph, l, x)
    ensures !Touches(c, ph, l', x)
  {
  }
}
