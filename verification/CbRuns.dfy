// Whole runs of the ping-pong ledger (src/cb_replay.rs): generations, claims, counters and recycling.
module CbRuns {
  import opened Common
  import opened CbLedger

  // The ledger after the first i calls of a run from s.
  function After(s: Ledger, ops: seq<Op>, i: nat): Ledger
    requires i <= |ops|
  {
    if i == 0 then s else Next(After(s, ops, i - 1), ops[i - 1])
  }

  // ---------- generations ----------

  // The slot a call starts recording into.
  function Starts(s: Ledger, op: Op): Option<CbSlot> {
    match op
    case Begin(x, _) => if s.Of(x).phase == Idle || s.Of(x).phase == Ready then Some(x) else None
    case MarkLive(_) => if s.Of(s.active).phase == Recording then None else Some(s.active)
    case MarkReplay(_) => if s.Of(s.active).phase == Recording then None else Some(s.active)
    case NoteLayer(_) => if s.Of(s.active).phase == Recording then None else Some(s.active)
    case _ => None
  }

  // The recordings among the first i calls.
  function Recordings(s: Ledger, ops: seq<Op>, i: nat): nat
    requires i <= |ops|
  {
    if i == 0 then 0
    else Recordings(s, ops, i - 1) + if Starts(After(s, ops, i - 1), ops[i - 1]).Some? then 1 else 0
  }

  // After k recordings: the last generation given out is k, the slots differ, and the counter has wrapped if it must.
  ghost predicate GenerationsOk(s: Ledger, k: nat) {
    s.nextGen == (k + 1) % U64 && s.a.generation <= k && s.b.generation <= k
    && (s.a.generation == k || s.b.generation == k)
    && (s.a.generation != s.b.generation || k == 0)
  }

  // Only a started recording takes a generation, and it takes the next one.
  lemma {:induction false} GenerationsMove(s: Ledger, op: Op, x: CbSlot)
    ensures Next(s, op).Of(x).generation == if Starts(s, op) == Some(x) then s.nextGen else s.Of(x).generation
    ensures Next(s, op).nextGen == if Starts(s, op).Some? then (s.nextGen + 1) % U64 else s.nextGen
  {
  }

  lemma {:induction false} GenerationsKept(s: Ledger, op: Op, k: nat)
    requires GenerationsOk(s, k) && (k + 1 < U64 || Starts(s, op) == None)
    ensures GenerationsOk(Next(s, op), if Starts(s, op).Some? then k + 1 else k)
  {
    GenerationsMove(s, op, A);
    GenerationsMove(s, op, B);
    var t := Next(s, op);
    assert t.a == t.Of(A) && t.b == t.Of(B) && s.a == s.Of(A) && s.b == s.Of(B);
  }

  lemma {:induction false} GenerationsAfter(dry: bool, ops: seq<Op>, i: nat)
    requires i <= |ops| && Recordings(Fresh(dry), ops, i) < U64
    ensures GenerationsOk(After(Fresh(dry), ops, i), Recordings(Fresh(dry), ops, i))
  {
    if i > 0 {
      GenerationsAfter(dry, ops, i - 1);
      GenerationsKept(After(Fresh(dry), ops, i - 1), ops[i - 1], Recordings(Fresh(dry), ops, i - 1));
    }
  }

  lemma {:induction false} RiseStep(s: Ledger, op: Op, k: nat, x: CbSlot)
    requires GenerationsOk(s, k) && k < U64
    ensures var t := Next(s, op);
            (s.a.generation == s.b.generation <==> k == 0)
            && (Starts(s, op) != Some(x) ==> t.Of(x).generation == s.Of(x).generation)
            && (Starts(s, op) == Some(x) ==>
                  (t.Of(x).generation > s.a.generation && t.Of(x).generation > s.b.generation <==> k + 1 < U64))
  {
    GenerationsMove(s, op, x);
  }

  // Main: over the first 2^64 - 1 recordings a recording gets a generation above both slots', over the next one not, and
  // no other call moves a generation; the two slots differ from the first recording on.
  lemma {:induction false} GenerationsRise(dry: bool, ops: seq<Op>, i: nat, x: CbSlot)
    requires i < |ops| && Recordings(Fresh(dry), ops, i) < U64
    ensures var s, t, k := After(Fresh(dry), ops, i), After(Fresh(dry), ops, i + 1), Recordings(Fresh(dry), ops, i);
            (s.a.generation == s.b.generation <==> k == 0)
            && (Starts(s, ops[i]) != Some(x) ==> t.Of(x).generation == s.Of(x).generation)
            && (Starts(s, ops[i]) == Some(x) ==>
                  (t.Of(x).generation > s.a.generation && t.Of(x).generation > s.b.generation <==> k + 1 < U64))
  {
    GenerationsAfter(dry, ops, i);
    RiseStep(After(Fresh(dry), ops, i), ops[i], Recordings(Fresh(dry), ops, i), x);
  }

  // ---------- claims ----------

  // The call puts work on the GPU for slot x: its tape is encoded and enabled, and the execute really ran.
  predicate Submits(s: Ledger, op: Op, x: CbSlot) {
    match op
    case TryIcb(y, enabled, e) => x == y && s.Of(x).phase == Ready && enabled && s.Wired() && e.Ran()
    case TryReadyIcb(enabled, e) => FirstReady(s) == Some(x) && enabled && s.Wired() && e.Ran()
    case _ => false
  }

  lemma {:induction false} OnlySubmitsClaim(s: Ledger, op: Op, x: CbSlot)
    requires !s.dryRun && Next(s, op).Of(x).phase == InFlight
    ensures s.Of(x).phase == InFlight || Submits(s, op, x)
  {
  }

  lemma {:induction false} DryRunFixed(s: Ledger, ops: seq<Op>, i: nat)
    requires i <= |ops|
    ensures After(s, ops, i).dryRun == s.dryRun
  {
    if i > 0 { DryRunFixed(s, ops, i - 1); }
  }

  // Main: outside a dry run an InFlight slot has work behind it: call j submitted it, and it has been InFlight since.
  lemma {:induction false} InFlightIsBacked(s: Ledger, ops: seq<Op>, i: nat, x: CbSlot) returns (j: nat)
    requires i <= |ops| && !s.dryRun && s.Of(x).phase != InFlight && After(s, ops, i).Of(x).phase == InFlight
    ensures j < i && Submits(After(s, ops, j), ops[j], x)
    ensures forall m :: j < m <= i ==> After(s, ops, m).Of(x).phase == InFlight
  {
    DryRunFixed(s, ops, i - 1);
    OnlySubmitsClaim(After(s, ops, i - 1), ops[i - 1], x);
    if After(s, ops, i - 1).Of(x).phase == InFlight {
      j := InFlightIsBacked(s, ops, i - 1, x);
    } else {
      j := i - 1;
    }
  }

  // The execute a call carries out on the tape, if it gets that far.
  function Runs(s: Ledger, op: Op): Option<Exec> {
    match op
    case Execute(e) => if s.Wired() then Some(e) else None
    case TryIcb(x, enabled, e) => if s.Of(x).phase == Ready && enabled && s.Wired() then Some(e) else None
    case TryReadyIcb(enabled, e) => if FirstReady(s).Some? && enabled && s.Wired() then Some(e) else None
    case _ => None
  }

  // Main: a replay whose execute failed or was suppressed leaves both slots and the active side as they were.
  lemma {:induction false} FruitlessReplayRestores(s: Ledger, op: Op)
    requires op.TryIcb? || op.TryReadyIcb? || op.Execute?
    ensures (Runs(s, op).Some? && Runs(s, op).value.Ran() && !op.Execute?)
            <==> (Next(s, op).a != s.a || Next(s, op).b != s.b)
    ensures Next(s, op).active == s.active && Next(s, op).nextGen == s.nextGen
  {
  }

  // ---------- counters ----------

  datatype Counter = LiveEncodes | NotWiredHits | IcbFailures | IcbReplays | LayerLive | Stale

  function Count(n: Counters, c: Counter): nat {
    match c
    case LiveEncodes => n.liveEncodes
    case NotWiredHits => n.notWired
    case IcbFailures => n.icbFailures
    case IcbReplays => n.icbReplays
    case LayerLive => n.layerLive
    case Stale => n.stale
  }

  // The events each counter is for.
  predicate Hits(s: Ledger, op: Op, c: Counter) {
    match c
    case LiveEncodes => op.MarkLive?
    case LayerLive => op.NoteLayer?
    case IcbReplays => Runs(s, op).Some? && Runs(s, op).value.Ran()
    case IcbFailures => Runs(s, op).Some? && Runs(s, op).value.failed && !op.Execute?
    case Stale => op.Complete? && s.Of(op.slot).phase == Recording
    case NotWiredHits =>
      match op
      case TryIcb(x, enabled, _) => s.Of(x).phase == Ready && Runs(s, op) == None
      case TryReadyIcb(enabled, _) => FirstReady(s).Some? && Runs(s, op) == None
      case Try(x) => s.Of(x).phase == Ready && !s.dryRun
      case TryReady => FirstReady(s).Some? && !s.dryRun
      case _ => false
  }

  function Tally(s: Ledger, ops: seq<Op>, i: nat, c: Counter): nat
    requires i <= |ops|
  {
    if i == 0 then 0 else Tally(s, ops, i - 1, c) + if Hits(After(s, ops, i - 1), ops[i - 1], c) then 1 else 0
  }

  lemma {:induction false} CounterStep(s: Ledger, op: Op, c: Counter)
    ensures Count(Next(s, op).n, c) == if Hits(s, op, c) then Bump(Count(s.n, c)) else Count(s.n, c)
  {
  }

  function Saturated(n: nat): nat { if n < U64 then n else U64 - 1 }

  // Main: every counter is the number of its events so far, stopping at 2^64 - 1. In particular a step encoded live
  // never counts as a replay, and every replay counted is an execute that ran.
  lemma {:induction false} CountersCount(dry: bool, ops: seq<Op>, i: nat, c: Counter)
    requires i <= |ops|
    ensures Count(After(Fresh(dry), ops, i).n, c) == Saturated(Tally(Fresh(dry), ops, i, c))
  {
    if i > 0 {
      CountersCount(dry, ops, i - 1, c);
      CounterStep(After(Fresh(dry), ops, i - 1), ops[i - 1], c);
    }
  }

  // ---------- recycling ----------

  predicate IsStep(op: Op) { op.MarkLive? || op.MarkReplay? || op.NoteLayer? }

  // Main: mark_step_inner counts on a whole step having run on the peer before it recycles a claimed slot. With the
  // slot claimed by `claim`, the very next step recycles it exactly when it was the active slot that was claimed;
  // otherwise the next step runs on the peer and the one after it recycles.
  lemma {:induction false} RecycledAfter(s: Ledger, claim: Op, x: CbSlot, step: Op, again: Op)
    requires Submits(s, claim, x) && IsStep(step) && IsStep(again)
    ensures var t := Next(s, claim);
            var u := Next(t, step);
            t.Of(x).phase == InFlight
            && (u.Of(x).phase != InFlight <==> x == s.active)
            && (x != s.active ==> u.active == x && u.Of(x.Peer()).phase == Ready && Next(u, again).Of(x).phase == Ready)
  {
  }

  // It does claim the active slot: with both slots Ready the search names A first, also when A is active. Two live
  // steps, a replay and a step recycle A with no step on B in between.
  lemma {:induction false} RecycledAtOnce(e: Exec)
    requires e.Ran()
    ensures var ops := [Attach(Icb(true, false)), MarkLive("0"), MarkLive("1"), TryReadyIcb(true, e), MarkReplay("2")];
            Submits(After(Fresh(false), ops, 3), ops[3], A)
            && After(Fresh(false), ops, 4).Of(A).phase == InFlight && After(Fresh(false), ops, 4).active == A
            && After(Fresh(false), ops, 5).Of(A).phase == Ready
  {
    var ops := [Attach(Icb(true, false)), MarkLive("0"), MarkLive("1"), TryReadyIcb(true, e), MarkReplay("2")];
    var s := Fresh(false);
    assert After(s, ops, 1) == Next(s, ops[0]);
    assert After(s, ops, 2) == Next(After(s, ops, 1), ops[1]);
    assert After(s, ops, 3) == Next(After(s, ops, 2), ops[2]);
    assert After(s, ops, 4) == Next(After(s, ops, 3), ops[3]);
  }

  // ---------- recycling, over any run ----------

  // Call m of the run is a step on slot x.
  predicate StepOn(s: Ledger, ops: seq<Op>, m: nat, x: CbSlot)
    requires m < |ops|
  {
    IsStep(ops[m]) && After(s, ops, m).active == x
  }

  // The first step at or after call i, or the end of the run.
  function FirstStep(ops: seq<Op>, i: nat): (k: nat)
    requires i <= |ops|
    ensures i <= k <= |ops| && (forall m :: i <= m < k ==> !IsStep(ops[m])) && (k < |ops| ==> IsStep(ops[k]))
    decreases |ops| - i
  {
    if i == |ops| || IsStep(ops[i]) then i else FirstStep(ops, i + 1)
  }

  // Call m starts a recording by hand.
  predicate Begins(s: Ledger, ops: seq<Op>, m: nat)
    requires m < |ops|
  {
    ops[m].Begin? && Starts(After(s, ops, m), ops[m]).Some?
  }

  // The last call in (i, k) that does, or i.
  function LastBegin(s: Ledger, ops: seq<Op>, i: nat, k: nat): (b: nat)
    requires i < k <= |ops|
    ensures i <= b < k && (b == i || Begins(s, ops, b)) && forall m :: b < m < k ==> !Begins(s, ops, m)
    decreases k
  {
    if k == i + 1 then i else if Begins(s, ops, k - 1) then k - 1 else LastBegin(s, ops, i, k - 1)
  }

  function Flips(ops: seq<Op>, i: nat, k: nat): nat
    requires i <= k <= |ops|
    decreases k
  {
    if k == i then 0 else Flips(ops, i, k - 1) + if ops[k - 1].Flip? then 1 else 0
  }

  function Turned(x: CbSlot, flips: nat): CbSlot { if flips % 2 == 0 then x else x.Peer() }

  // The slot the first step after call i works on: where the last hand-made recording since pointed, or the slot that
  // was active at i, turned by the flips after it.
  function Faces(s: Ledger, ops: seq<Op>, i: nat): CbSlot
    requires i < |ops|
  {
    var k := FirstStep(ops, i + 1);
    var b := LastBegin(s, ops, i, k);
    Turned(if b == i then After(s, ops, i).active else ops[b].slot, Flips(ops, b + 1, k))
  }

  // Steps, flips and recordings begun by hand are all that moves the active side.
  lemma {:induction false} ActiveTurns(s: Ledger, ops: seq<Op>, b: nat, k: nat, y: CbSlot)
    requires b < k <= |ops| && After(s, ops, b + 1).active == y
    requires forall m :: b < m < k ==> !IsStep(ops[m]) && !Begins(s, ops, m)
    ensures After(s, ops, k).active == Turned(y, Flips(ops, b + 1, k))
    decreases k
  {
    if k > b + 1 {
      ActiveTurns(s, ops, b, k - 1, y);
      assert !IsStep(ops[k - 1]) && !Begins(s, ops, k - 1);
    }
  }

  lemma {:induction false} FacesFirst(s: Ledger, ops: seq<Op>, i: nat, x: CbSlot)
    requires i < |ops| && Submits(After(s, ops, i), ops[i], x)
    ensures After(s, ops, FirstStep(ops, i + 1)).active == Faces(s, ops, i)
  {
    var k := FirstStep(ops, i + 1);
    var b := LastBegin(s, ops, i, k);
    assert b > i ==> Begins(s, ops, b);
    ActiveTurns(s, ops, b, k, if b == i then After(s, ops, i).active else ops[b].slot);
  }

  // Main: call i claims slot x, and the step at j is the first to recycle it. A step ran on the peer in between, as the
  // source says one always has, if and only if the first step after the claim did not face x.
  lemma {:induction false} PeerRanIff(s: Ledger, ops: seq<Op>, i: nat, j: nat, x: CbSlot)
    requires i < j < |ops| && Submits(After(s, ops, i), ops[i], x) && StepOn(s, ops, j, x)
    requires forall m :: i < m <= j ==> After(s, ops, m).Of(x).phase == InFlight
    ensures After(s, ops, j + 1).Of(x).phase == Ready
    ensures (exists m :: i < m < j && StepOn(s, ops, m, x.Peer())) <==> Faces(s, ops, i) != x
  {
    var k := FirstStep(ops, i + 1);
    FacesFirst(s, ops, i, x);
    assert k <= j;
    if k < j {
      assert After(s, ops, k + 1).Of(x).phase == InFlight;
      assert StepOn(s, ops, k, x.Peer());
    }
  }

  // With neither a flip nor a hand-made recording between the claim and the next step, that is: exactly when the
  // claimed slot was not the active one.
  lemma {:induction false} FacesActive(s: Ledger, ops: seq<Op>, i: nat)
    requires i < |ops|
    requires forall m :: i < m < FirstStep(ops, i + 1) ==> !ops[m].Flip? && !Begins(s, ops, m)
    ensures Faces(s, ops, i) == After(s, ops, i).active
  {
    var k := FirstStep(ops, i + 1);
    assert LastBegin(s, ops, i, k) == i;
    NoFlips(ops, i + 1, k);
  }

  lemma {:induction false} NoFlips(ops: seq<Op>, i: nat, k: nat)
    requires i <= k <= |ops| && forall m :: i <= m < k ==> !ops[m].Flip?
    ensures Flips(ops, i, k) == 0
    decreases k
  {
    if k > i { NoFlips(ops, i, k - 1); }
  }

  // A flip is enough: B is active when A is claimed, and the next step recycles A with no step on B since.
  lemma {:induction false} RecycledAfterFlip(e: Exec)
    requires e.Ran()
    ensures var ops := [Attach(Icb(true, false)), MarkLive("0"), TryReadyIcb(true, e), Flip, MarkReplay("1")];
            Submits(After(Fresh(false), ops, 2), ops[2], A) && After(Fresh(false), ops, 2).active == B
            && Faces(Fresh(false), ops, 2) == A
            && After(Fresh(false), ops, 4).Of(A).phase == InFlight && After(Fresh(false), ops, 5).Of(A).phase == Ready
  {
    var ops := [Attach(Icb(true, false)), MarkLive("0"), TryReadyIcb(true, e), Flip, MarkReplay("1")];
    var s := Fresh(false);
    assert After(s, ops, 1) == Next(s, ops[0]);
    assert After(s, ops, 2) == Next(After(s, ops, 1), ops[1]);
    assert After(s, ops, 3) == Next(After(s, ops, 2), ops[2]);
    assert After(s, ops, 4) == Next(After(s, ops, 3), ops[3]);
    assert FirstStep(ops, 3) == 4;
    FacesFirst(s, ops, 2, A);
  }

  // ---------- generations, past the wrap ----------

  // Which recording, counted from 1, slot x holds after i calls; 0 for none.
  function Serial(s: Ledger, ops: seq<Op>, i: nat, x: CbSlot): nat
    requires i <= |ops|
  {
    if i == 0 then 0
    else if Starts(After(s, ops, i - 1), ops[i - 1]) == Some(x) then Recordings(s, ops, i)
    else Serial(s, ops, i - 1, x)
  }

  // Slots A and B hold recordings na and nb of the k there were.
  ghost predicate Numbered(s: Ledger, k: nat, na: nat, nb: nat) {
    s.nextGen == (k + 1) % U64 && s.a.generation == na % U64 && s.b.generation == nb % U64
    && na <= k && nb <= k && (k == 0 || (na == k) != (nb == k))
  }

  lemma {:induction false} NextSerial(g: nat, k: nat)
    requires g == (k + 1) % U64
    ensures (g + 1) % U64 == (k + 2) % U64
  {
    assert (k + 1) == (k + 1) / U64 * U64 + g;
  }

  lemma {:induction false} NumberedStep(s: Ledger, op: Op, k: nat, na: nat, nb: nat)
    requires Numbered(s, k, na, nb)
    ensures Numbered(Next(s, op), if Starts(s, op).Some? then k + 1 else k,
                     if Starts(s, op) == Some(A) then k + 1 else na, if Starts(s, op) == Some(B) then k + 1 else nb)
  {
    NextSerial(s.nextGen, k);
    GenerationsMove(s, op, A);
    GenerationsMove(s, op, B);
    var t := Next(s, op);
    assert t.a == t.Of(A) && t.b == t.Of(B) && s.a == s.Of(A) && s.b == s.Of(B);
  }

  // Main: over every run, however long, a slot's generation is its recording's number modulo 2^64; the numbers only
  // rise, and the two slots' differ from the first recording on.
  lemma {:induction false} GenerationsAreSerials(dry: bool, ops: seq<Op>, i: nat)
    requires i <= |ops|
    ensures Numbered(After(Fresh(dry), ops, i), Recordings(Fresh(dry), ops, i), Serial(Fresh(dry), ops, i, A),
                     Serial(Fresh(dry), ops, i, B))
  {
    if i > 0 {
      GenerationsAreSerials(dry, ops, i - 1);
      NumberedStep(After(Fresh(dry), ops, i - 1), ops[i - 1], Recordings(Fresh(dry), ops, i - 1),
                   Serial(Fresh(dry), ops, i - 1, A), Serial(Fresh(dry), ops, i - 1, B));
    }
  }

  // Main: a recording gets a generation above both slots' exactly when its number does modulo 2^64.
  lemma {:induction false} RisesIff(dry: bool, ops: seq<Op>, i: nat, x: CbSlot)
    requires i < |ops| && Starts(After(Fresh(dry), ops, i), ops[i]) == Some(x)
    ensures var s, t, n := After(Fresh(dry), ops, i), After(Fresh(dry), ops, i + 1), Recordings(Fresh(dry), ops, i) + 1;
            (t.Of(x).generation > s.a.generation && t.Of(x).generation > s.b.generation)
            <==> (n % U64 > Serial(Fresh(dry), ops, i, A) % U64 && n % U64 > Serial(Fresh(dry), ops, i, B) % U64)
  {
    GenerationsAreSerials(dry, ops, i);
    GenerationsMove(After(Fresh(dry), ops, i), ops[i], x);
  }

  // The ledger after i live steps and nothing else.
  ghost predicate Stepped(s: Ledger, i: nat) {
    s.active == (if i % 2 == 0 then A else B) && s.a.phase != Recording && s.b.phase != Recording
  }

  lemma {:induction false} LiveStep(s: Ledger, i: nat)
    requires Stepped(s, i)
    ensures Stepped(Next(s, MarkLive("")), i + 1) && Starts(s, MarkLive("")) == Some(s.active)
  {
  }

  lemma {:induction false} LiveSteps(ops: seq<Op>, i: nat)
    requires i <= |ops| && forall m :: 0 <= m < |ops| ==> ops[m] == MarkLive("")
    ensures Recordings(Fresh(false), ops, i) == i && Stepped(After(Fresh(false), ops, i), i)
  {
    if i > 0 {
      LiveSteps(ops, i - 1);
      LiveStep(After(Fresh(false), ops, i - 1), i - 1);
    }
  }

  // 2^64 live steps from a fresh ledger reach the wrap: the last one's recording gets generation 0.
  lemma {:induction false} WrapReached() returns (ops: seq<Op>, i: nat)
    ensures i < |ops| && Recordings(Fresh(false), ops, i) == U64 - 1
    ensures var s, t := After(Fresh(false), ops, i), After(Fresh(false), ops, i + 1);
            Starts(s, ops[i]) == Some(s.active) && t.Of(s.active).generation == 0 && s.Of(s.active.Peer()).generation > 0
  {
    ops, i := seq(U64, _ => MarkLive("")), U64 - 1;
    LiveSteps(ops, i);
    LiveStep(After(Fresh(false), ops, i), i);
    GenerationsAfter(false, ops, i);
    GenerationsMove(After(Fresh(false), ops, i), ops[i], After(Fresh(false), ops, i).active);
  }
}
