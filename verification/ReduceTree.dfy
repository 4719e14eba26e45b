// The two-level row reduction (kernels/reduce_tree.h) as a machine of lanes around barriers: two reductions run back
// to back on separate scratch regions, in every interleaving of their lanes.
module ReduceTree {

  datatype Kind = Add | Max

  function Op(k: Kind, a: real, b: real): real {
    match k
    case Add => a + b
    case Max => if a > b then a else b
  }

  // simd_sum / simd_max over the values of the active lanes.
  function Fold(k: Kind, s: seq<real>): real
    requires s != []
  {
    if |s| == 1 then s[0] else Op(k, Fold(k, s[..|s| - 1]), s[|s| - 1])
  }

  // ---------- the launch ----------

  function Groups(tptg: nat): nat { (tptg + 31) / 32 }

  // The number of lanes simdgroup g has.
  function Active(tptg: nat, g: nat): (a: nat)
    requires g < Groups(tptg)
    ensures 0 < a <= 32 && 32 * g + a <= tptg
  {
    if tptg - 32 * g < 32 then tptg - 32 * g else 32
  }

  // The values simdgroup g holds.
  function Of<T>(s: seq<T>, g: nat): (r: seq<T>)
    requires g < Groups(|s|)
    ensures |r| == Active(|s|, g)
  {
    s[32 * g..32 * g + Active(|s|, g)]
  }

  // Every lane of simdgroup g takes x.
  function SetAll<T>(s: seq<T>, g: nat, x: T): (r: seq<T>)
    ensures |r| == |s|
    ensures forall l :: 0 <= l < |s| ==> r[l] == if l / 32 == g then x else s[l]
  {
    seq(|s|, l requires 0 <= l < |s| => if l / 32 == g then x else s[l])
  }

  // ---------- what the lanes get ----------

  // The partial simdgroup g publishes.
  function Partial(k: Kind, w: seq<real>, g: nat): real
    requires g < Groups(|w|)
  {
    Fold(k, Of(w, g))
  }

  // What lane i of a simdgroup takes into the second fold.
  function Taken(k: Kind, w: seq<real>, i: nat): real
    requires w != []
  {
    if i < Groups(|w|) then Partial(k, w, i) else if k == Add then 0.0 else Partial(k, w, 0)
  }

  function TakenBy(k: Kind, w: seq<real>, n: nat): (r: seq<real>)
    requires w != []
    ensures |r| == n && forall i :: 0 <= i < n ==> r[i] == Taken(k, w, i)
  {
    seq(n, i requires 0 <= i < n => Taken(k, w, i))
  }

  // What every lane of simdgroup g ends with: the second fold covers only the lanes the simdgroup has.
  function Result(k: Kind, w: seq<real>, g: nat): real
    requires g < Groups(|w|)
  {
    if Groups(|w|) == 1 then Partial(k, w, 0) else Fold(k, TakenBy(k, w, Active(|w|, g)))
  }

  // ---------- the machine ----------

  // Two reductions: their kinds, the first inputs, and each lane's second input made from its first result.
  datatype Launch = Launch(k0: Kind, k1: Kind, v: seq<real>, next: (nat, real) -> real)
  {
    ghost predicate Valid() { 0 < |v| <= 1024 }

    function K(r: nat): Kind { if r == 0 then k0 else k1 }

    function NextIn(): (w: seq<real>)
      ensures |w| == |v| && forall l: nat :: l < |v| ==> w[l] == next(l, Result(k0, v, l / 32))
    {
      seq(|v|, l requires 0 <= l < |v| => next(l, Result(k0, v, l / 32)))
    }

    // The inputs of round r.
    function In(r: nat): (w: seq<real>)
      ensures |w| == |v|
    {
      if r == 0 then v else NextIn()
    }
  }

  // Lane l of round r counts through 6r + 0 (before the first fold), 1 (publishing), 2 (at the barrier), 3 (reading),
  // 4 (before the second fold) and 5 (with the result). Each round has its own region of scratch.
  datatype State = State(pc: seq<nat>, v: seq<real>, partial: seq<real>, r0: seq<real>, r1: seq<real>)
  {
    function Region(r: nat): seq<real> { if r == 0 then r0 else r1 }

    ghost predicate Fits(tptg: nat) {
      |pc| == |v| == |partial| == tptg && |r0| == |r1| == 32
    }

    // All lanes of simdgroup g are at place p, so they can fold together.
    ghost predicate GroupAt(g: nat, p: nat) {
      forall l :: 0 <= l < |pc| && l / 32 == g ==> pc[l] == p
    }
  }

  datatype Action = FoldIn(g: nat) | Publish(l: nat) | Release | Read(l: nat) | FoldOut(g: nat) | Again(l: nat)

  ghost predicate Enabled(c: Launch, s: State, a: Action, r: nat)
    requires c.Valid() && s.Fits(|c.v|)
  {
    r < 2 &&
    match a
    case FoldIn(g) => g < Groups(|c.v|) && s.GroupAt(g, 6 * r)
    case Publish(l) => l < |c.v| && s.pc[l] == 6 * r + 1
    case Release => forall l :: 0 <= l < |c.v| ==> s.pc[l] == 6 * r + 2
    case Read(l) => l < |c.v| && s.pc[l] == 6 * r + 3
    case FoldOut(g) => g < Groups(|c.v|) && s.GroupAt(g, 6 * r + 4)
    case Again(l) => r == 0 && l < |c.v| && s.pc[l] == 5
  }

  // The first fold; a launch of one simdgroup is then done with the round.
  function AfterFoldIn(c: Launch, s: State, g: nat, r: nat): State
    requires s.Fits(|c.v|) && g < Groups(|c.v|)
  {
    s.(v := SetAll(s.v, g, Fold(c.K(r), Of(s.v, g))),
       pc := SetAll(s.pc, g, if Groups(|c.v|) == 1 then 6 * r + 5 else 6 * r + 1))
  }

  // Lane 0 of a simdgroup writes its partial; the other lanes write nothing.
  function AfterPublish(c: Launch, s: State, l: nat, r: nat): State
    requires c.Valid() && s.Fits(|c.v|) && l < |c.v|
  {
    var t := s.(pc := s.pc[l := 6 * r + 2]);
    if l % 32 != 0 then t
    else if r == 0 then t.(r0 := s.r0[l / 32 := s.v[l]])
    else t.(r1 := s.r1[l / 32 := s.v[l]])
  }

  // The barrier lets every lane go at once.
  function AfterRelease(s: State, r: nat): (t: State)
    ensures |t.pc| == |s.pc| && forall l :: 0 <= l < |s.pc| ==> t.pc[l] == 6 * r + 3
  {
    s.(pc := seq(|s.pc|, l requires 0 <= l < |s.pc| => 6 * r + 3))
  }

  function AfterRead(c: Launch, s: State, l: nat, r: nat): State
    requires c.Valid() && s.Fits(|c.v|) && l < |c.v|
  {
    var x := if l % 32 < Groups(|c.v|) then s.Region(r)[l % 32] else if c.K(r) == Add then 0.0 else s.Region(r)[0];
    s.(pc := s.pc[l := 6 * r + 4], partial := s.partial[l := x])
  }

  function AfterFoldOut(c: Launch, s: State, g: nat, r: nat): State
    requires s.Fits(|c.v|) && g < Groups(|c.v|)
  {
    s.(v := SetAll(s.v, g, Fold(c.K(r), Of(s.partial, g))), pc := SetAll(s.pc, g, 6 * r + 5))
  }

  // Between the reductions a lane makes its second input, past no barrier.
  function AfterAgain(c: Launch, s: State, l: nat): State
    requires s.Fits(|c.v|) && l < |c.v|
  {
    s.(pc := s.pc[l := 6], v := s.v[l := c.next(l, s.v[l])])
  }

  function After(c: Launch, s: State, a: Action, r: nat): State
    requires c.Valid() && s.Fits(|c.v|) && Enabled(c, s, a, r)
  {
    match a
    case FoldIn(g) => AfterFoldIn(c, s, g, r)
    case Publish(l) => AfterPublish(c, s, l, r)
    case Release => AfterRelease(s, r)
    case Read(l) => AfterRead(c, s, l, r)
    case FoldOut(g) => AfterFoldOut(c, s, g, r)
    case Again(l) => AfterAgain(c, s, l)
  }

  ghost predicate Start(c: Launch, s: State) {
    s.Fits(|c.v|) && s.v == c.v && forall l :: 0 <= l < |c.v| ==> s.pc[l] == 0
  }

  // ---------- what every step keeps ----------

  // What lane l of a round over w holds at place p.
  ghost predicate RoundOk(k: Kind, w: seq<real>, l: nat, p: nat, v: real, partial: real)
    requires l < |w|
  {
    p <= 5
    && (p == 0 ==> v == w[l])
    && (p == 1 || p == 2 ==> v == Partial(k, w, l / 32))
    && (p == 4 ==> partial == Taken(k, w, l % 32))
    && (p == 5 ==> v == Result(k, w, l / 32))
    && (Groups(|w|) == 1 ==> p == 0 || p == 5)
  }

  ghost predicate LaneOk(c: Launch, s: State, l: nat)
    requires s.Fits(|c.v|) && l < |c.v|
  {
    if s.pc[l] < 6 then RoundOk(c.k0, c.v, l, s.pc[l], s.v[l], s.partial[l])
    else RoundOk(c.k1, c.NextIn(), l, s.pc[l] - 6, s.v[l], s.partial[l])
  }

  ghost predicate LanesOk(c: Launch, s: State)
    requires s.Fits(|c.v|)
  {
    forall l :: 0 <= l < |c.v| ==> LaneOk(c, s, l)
  }

  // The partials that have been published are in the round's region.
  ghost predicate RegionOk(c: Launch, s: State, r: nat)
    requires c.Valid() && s.Fits(|c.v|)
  {
    forall g :: 0 <= g < Groups(|c.v|) && s.pc[32 * g] >= 6 * r + 2 ==>
      Groups(|c.v|) == 1 || s.Region(r)[g] == Partial(c.K(r), c.In(r), g)
  }

  // Nobody is past place p while somebody is still before it.
  ghost predicate Together(s: State, p: nat) {
    forall l, l' :: 0 <= l < |s.pc| && 0 <= l' < |s.pc| && s.pc[l] >= p ==> s.pc[l'] >= p
  }

  // The lanes of one simdgroup pass place p together.
  ghost predicate InStep(s: State, p: nat) {
    forall l, l' :: 0 <= l < |s.pc| && 0 <= l' < |s.pc| && l / 32 == l' / 32 && s.pc[l] >= p ==> s.pc[l'] >= p
  }

  ghost predicate Synced(s: State) {
    Together(s, 3) && Together(s, 9) && InStep(s, 1) && InStep(s, 5) && InStep(s, 7) && InStep(s, 11)
  }

  ghost predicate Inv(c: Launch, s: State) {
    c.Valid() && s.Fits(|c.v|) && LanesOk(c, s) && RegionOk(c, s, 0) && RegionOk(c, s, 1) && Synced(s)
  }

  lemma {:induction false} StartInv(c: Launch, s: State)
    requires c.Valid() && Start(c, s)
    ensures Inv(c, s)
  {
  }

  lemma {:induction false} OfSame(s: seq<real>, t: seq<real>, g: nat)
    requires |s| == |t| && g < Groups(|s|)
    requires forall l :: 0 <= l < |s| && l / 32 == g ==> s[l] == t[l]
    ensures Of(s, g) == Of(t, g)
  {
  }

  lemma {:induction false} FoldInLanes(c: Launch, s: State, g: nat, r: nat)
    requires Inv(c, s) && Enabled(c, s, FoldIn(g), r)
    ensures LanesOk(c, AfterFoldIn(c, s, g, r))
  {
    forall l | 0 <= l < |c.v| && l / 32 == g ensures s.v[l] == c.In(r)[l] {
      assert LaneOk(c, s, l);
    }
    OfSame(s.v, c.In(r), g);
    forall l | 0 <= l < |c.v| ensures LaneOk(c, AfterFoldIn(c, s, g, r), l) {
      assert LaneOk(c, s, l);
    }
  }

  lemma {:induction false} PartialTaken(c: Launch, s: State, g: nat, i: nat, r: nat)
    requires Inv(c, s) && Enabled(c, s, FoldOut(g), r) && i < Active(|c.v|, g)
    ensures s.partial[32 * g + i] == Taken(c.K(r), c.In(r), i)
  {
    var l := 32 * g + i;
    assert l / 32 == g && l % 32 == i;
    assert LaneOk(c, s, l);
  }

  lemma {:induction false} PartialsTaken(c: Launch, s: State, g: nat, r: nat)
    requires Inv(c, s) && Enabled(c, s, FoldOut(g), r)
    ensures Of(s.partial, g) == TakenBy(c.K(r), c.In(r), Active(|c.v|, g))
  {
    forall i: nat | i < Active(|c.v|, g) ensures Of(s.partial, g)[i] == Taken(c.K(r), c.In(r), i) {
      PartialTaken(c, s, g, i, r);
    }
  }

  lemma {:induction false} FoldOutLanes(c: Launch, s: State, g: nat, r: nat)
    requires Inv(c, s) && Enabled(c, s, FoldOut(g), r)
    ensures LanesOk(c, AfterFoldOut(c, s, g, r))
  {
    assert LaneOk(c, s, 32 * g);
    PartialsTaken(c, s, g, r);
    forall l | 0 <= l < |c.v| ensures LaneOk(c, AfterFoldOut(c, s, g, r), l) {
      assert LaneOk(c, s, l);
    }
  }

  lemma {:induction false} ReadLanes(c: Launch, s: State, l: nat, r: nat)
    requires Inv(c, s) && Enabled(c, s, Read(l), r)
    ensures LanesOk(c, AfterRead(c, s, l, r))
  {
    assert LaneOk(c, s, l);
    assert RegionOk(c, s, r);
    if l % 32 < Groups(|c.v|) { assert s.pc[32 * (l % 32)] >= 6 * r + 3; }
    assert s.pc[32 * 0] >= 6 * r + 3;
    forall l' | 0 <= l' < |c.v| ensures LaneOk(c, AfterRead(c, s, l, r), l') {
      assert LaneOk(c, s, l');
    }
  }

  lemma {:induction false} OtherLanes(c: Launch, s: State, a: Action, r: nat)
    requires c.Valid() && s.Fits(|c.v|) && LanesOk(c, s) && Enabled(c, s, a, r) && (a.Publish? || a.Release? || a.Again?)
    ensures LanesOk(c, After(c, s, a, r))
  {
    forall l | 0 <= l < |c.v| ensures LaneOk(c, After(c, s, a, r), l) {
      assert LaneOk(c, s, l);
    }
  }

  lemma {:induction false} LanesKept(c: Launch, s: State, a: Action, r: nat)
    requires Inv(c, s) && Enabled(c, s, a, r)
    ensures LanesOk(c, After(c, s, a, r))
  {
    match a
    case FoldIn(g) => FoldInLanes(c, s, g, r);
    case FoldOut(g) => FoldOutLanes(c, s, g, r);
    case Read(l) => ReadLanes(c, s, l, r);
    case _ => OtherLanes(c, s, a, r);
  }

  // Before the barrier a lane holds its simdgroup's partial.
  lemma {:induction false} HoldsPartial(c: Launch, s: State, l: nat, r: nat)
    requires Inv(c, s) && r < 2 && l < |c.v| && s.pc[l] == 6 * r + 1
    ensures s.v[l] == Partial(c.K(r), c.In(r), l / 32)
  {
    assert LaneOk(c, s, l);
  }

  // Publishing puts it in the region, and changes no other entry of either region.
  lemma {:induction false} Published(c: Launch, s: State, l: nat, r: nat, q: nat, g: nat)
    requires c.Valid() && s.Fits(|c.v|) && Enabled(c, s, Publish(l), r) && q < 2 && g < Groups(|c.v|)
    ensures AfterPublish(c, s, l, r).Region(q)[g] == if q == r && l == 32 * g then s.v[l] else s.Region(q)[g]
    ensures AfterPublish(c, s, l, r).pc[32 * g] >= 6 * q + 2 && !(q == r && l == 32 * g) ==> s.pc[32 * g] >= 6 * q + 2
  {
  }

  // Nothing else writes a region, and no other step takes a lane past its publishing.
  lemma {:induction false} OthersKeep(c: Launch, s: State, a: Action, r: nat, q: nat, g: nat)
    requires c.Valid() && s.Fits(|c.v|) && Enabled(c, s, a, r) && !a.Publish? && q < 2 && g < Groups(|c.v|) && Groups(|c.v|) > 1
    requires After(c, s, a, r).pc[32 * g] >= 6 * q + 2
    ensures s.pc[32 * g] >= 6 * q + 2 && After(c, s, a, r).Region(q) == s.Region(q)
  {
  }

  // Entry g of a region stays `want` once it is, if that is what gets published there.
  lemma {:induction false} EntryKept(c: Launch, s: State, a: Action, r: nat, q: nat, g: nat, want: real)
    requires c.Valid() && s.Fits(|c.v|) && Enabled(c, s, a, r) && q < 2 && g < Groups(|c.v|) && Groups(|c.v|) > 1
    requires s.pc[32 * g] >= 6 * q + 2 ==> s.Region(q)[g] == want
    requires a == Publish(32 * g) && q == r ==> s.v[32 * g] == want
    requires After(c, s, a, r).pc[32 * g] >= 6 * q + 2
    ensures After(c, s, a, r).Region(q)[g] == want
  {
    if a.Publish? {
      Published(c, s, a.l, r, q, g);
    } else {
      OthersKeep(c, s, a, r, q, g);
    }
  }

  lemma {:induction false} RegionKept(c: Launch, s: State, a: Action, r: nat, q: nat)
    requires c.Valid() && s.Fits(|c.v|) && RegionOk(c, s, q) && Enabled(c, s, a, r) && q < 2
    requires a.Publish? && q == r ==> s.v[a.l] == Partial(c.K(r), c.In(r), a.l / 32)
    ensures RegionOk(c, After(c, s, a, r), q)
  {
    var t := After(c, s, a, r);
    forall g | 0 <= g < Groups(|c.v|) && t.pc[32 * g] >= 6 * q + 2
      ensures Groups(|c.v|) == 1 || t.Region(q)[g] == Partial(c.K(q), c.In(q), g)
    {
      if Groups(|c.v|) > 1 {
        var want := Partial(c.K(q), c.In(q), g);
        assert a == Publish(32 * g) && q == r ==> s.v[32 * g] == want by {
          if a == Publish(32 * g) { assert a.l / 32 == g; }
        }
        assert s.pc[32 * g] >= 6 * q + 2 ==> s.Region(q)[g] == want;
        EntryKept(c, s, a, r, q, g, want);
      }
    }
  }

  // Only the fold of a one-simdgroup launch and the barrier carry lanes past place 6q + 3, and both carry them all.
  lemma {:induction false} PairTogether(c: Launch, s: State, a: Action, r: nat, q: nat, l: nat, l': nat)
    requires c.Valid() && s.Fits(|c.v|) && Enabled(c, s, a, r) && q < 2 && l < |c.v| && l' < |c.v|
    requires s.pc[l] >= 6 * q + 3 ==> s.pc[l'] >= 6 * q + 3
    requires After(c, s, a, r).pc[l] >= 6 * q + 3
    ensures After(c, s, a, r).pc[l'] >= 6 * q + 3
  {
    match a
    case FoldIn(g) => if Groups(|c.v|) == 1 { assert l / 32 == l' / 32 == 0; }
    case _ =>
  }

  lemma {:induction false} TogetherKept(c: Launch, s: State, a: Action, r: nat, q: nat)
    requires c.Valid() && s.Fits(|c.v|) && Together(s, 6 * q + 3) && Enabled(c, s, a, r) && q < 2
    ensures Together(After(c, s, a, r), 6 * q + 3)
  {
    assert Together(s, 6 * q + 3);
    var t := After(c, s, a, r);
    forall l, l' | 0 <= l < |t.pc| && 0 <= l' < |t.pc| && t.pc[l] >= 6 * q + 3 ensures t.pc[l'] >= 6 * q + 3 {
      PairTogether(c, s, a, r, q, l, l');
    }
  }

  // Only folds carry lanes past these places, whole simdgroups at a time.
  lemma {:induction false} InStepKept(c: Launch, s: State, a: Action, r: nat, p: nat)
    requires Inv(c, s) && Enabled(c, s, a, r) && (p == 1 || p == 5 || p == 7 || p == 11)
    ensures InStep(After(c, s, a, r), p)
  {
    var t := After(c, s, a, r);
    forall l, l' | 0 <= l < |t.pc| && 0 <= l' < |t.pc| && l / 32 == l' / 32 && t.pc[l] >= p ensures t.pc[l'] >= p {
      assert InStep(s, p);
      assert LaneOk(c, s, l) && LaneOk(c, s, l');
    }
  }

  lemma {:induction false} SyncedKept(c: Launch, s: State, a: Action, r: nat)
    requires Inv(c, s) && Enabled(c, s, a, r)
    ensures Synced(After(c, s, a, r))
  {
    TogetherKept(c, s, a, r, 0);
    TogetherKept(c, s, a, r, 1);
    InStepKept(c, s, a, r, 1);
    InStepKept(c, s, a, r, 5);
    InStepKept(c, s, a, r, 7);
    InStepKept(c, s, a, r, 11);
  }

  // Main: whichever lane moves next, the invariant survives.
  lemma {:induction false} StepKeeps(c: Launch, s: State, a: Action, r: nat)
    requires Inv(c, s) && Enabled(c, s, a, r)
    ensures Inv(c, After(c, s, a, r))
  {
    LanesKept(c, s, a, r);
    if a.Publish? { HoldsPartial(c, s, a.l, r); }
    RegionKept(c, s, a, r, 0);
    RegionKept(c, s, a, r, 1);
    SyncedKept(c, s, a, r);
  }

  // ---------- whole runs ----------

  datatype Move = Move(a: Action, r: nat)

  ghost predicate Run(c: Launch, s: State, moves: seq<Move>, t: State)
    requires c.Valid() && s.Fits(|c.v|)
    decreases |moves|
  {
    if moves == [] then s == t
    else
      var m := moves[0];
      Enabled(c, s, m.a, m.r) && After(c, s, m.a, m.r).Fits(|c.v|) && Run(c, After(c, s, m.a, m.r), moves[1..], t)
  }

  lemma {:induction false} RunKeeps(c: Launch, s: State, moves: seq<Move>, t: State)
    requires Inv(c, s) && Run(c, s, moves, t)
    ensures Inv(c, t)
    decreases |moves|
  {
    if moves != [] {
      StepKeeps(c, s, moves[0].a, moves[0].r);
      RunKeeps(c, After(c, s, moves[0].a, moves[0].r), moves[1..], t);
    }
  }

  // Main: in every interleaving, a lane that has finished round r holds the same value its simdgroup would get alone.
  lemma {:induction false} EveryRun(c: Launch, s: State, moves: seq<Move>, t: State, l: nat)
    requires c.Valid() && Start(c, s) && Run(c, s, moves, t) && l < |c.v|
    ensures t.Fits(|c.v|)
    ensures t.pc[l] == 5 ==> t.v[l] == Result(c.k0, c.v, l / 32)
    ensures t.pc[l] == 11 ==> t.v[l] == Result(c.k1, c.NextIn(), l / 32)
  {
    StartInv(c, s);
    RunKeeps(c, s, moves, t);
    assert LaneOk(c, t, l);
  }

  // A lane nobody is behind.
  lemma {:induction false} Hindmost(pc: seq<nat>) returns (l: nat)
    requires pc != []
    ensures l < |pc| && forall l' :: 0 <= l' < |pc| ==> pc[l] <= pc[l']
  {
    l := 0;
    for i := 1 to |pc|
      invariant l < |pc| && forall l' :: 0 <= l' < i ==> pc[l] <= pc[l']
    {
      if pc[i] < pc[l] { l := i; }
    }
  }

  // Main: no run gets stuck before every lane has both results; the hindmost lane can always move, alone, with its
  // simdgroup, or with everybody.
  lemma {:induction false} NeverStuck(c: Launch, s: State) returns (m: Move)
    requires Inv(c, s) && exists l :: 0 <= l < |c.v| && s.pc[l] != 11
    ensures Enabled(c, s, m.a, m.r)
  {
    var l := Hindmost(s.pc);
    assert LaneOk(c, s, l);
    var l1 :| 0 <= l1 < |c.v| && s.pc[l1] != 11;
    assert LaneOk(c, s, l1);
    var r := if s.pc[l] < 6 then 0 else 1;
    var p := s.pc[l] - 6 * r;
    var a := if p == 0 then FoldIn(l / 32) else if p == 1 then Publish(l) else if p == 2 then Release
             else if p == 3 then Read(l) else if p == 4 then FoldOut(l / 32) else Again(l);
    m := Move(a, r);
  }
}
