// Which threadgroup of a bank-partitioned dispatch works on which rows of which bank
// (kernels/gemv_q4_mlx_simd.h), and the whole dispatch.
module Q4Route {
  import opened Q4Dot
  import opened Q4Gemv

  // First output row of simdgroup sgid of a bank's threadgroup.
  function Row0(localTg: nat, sgid: nat): nat { (localTg * SIMD_SG_PER_TG + sgid) * SIMD_ROWS }

  // The host's grid: eight rows a threadgroup.
  function Threadgroups(rows: nat): nat { (rows + 7) / 8 }

  // Every row belongs to exactly one simdgroup of its bank.
  lemma {:induction false} RowOwner(localTg: nat, sgid: nat, row: nat)
    requires sgid < SIMD_SG_PER_TG
    ensures Row0(localTg, sgid) <= row < Row0(localTg, sgid) + SIMD_ROWS <==> localTg == row / 8 && sgid == row % 8 / 4
  {
  }

  lemma {:induction false} OwnerExists(rows: nat, row: nat)
    requires row < rows
    ensures row / 8 < Threadgroups(rows)
  {
  }

  datatype BankId = Q | K | V

  datatype Route = Route(bank: BankId, localTg: nat)

  // The last threadgroup of a bank has a row to do.
  lemma {:induction false} ThreadgroupsAre(rows: nat)
    ensures rows <= Threadgroups(rows) * 8 && (rows > 0 ==> (Threadgroups(rows) - 1) * 8 < rows)
  {
  }

  function RouteKv(tgid: nat, tgK: nat): Route {
    if tgid < tgK then Route(K, tgid) else Route(V, tgid - tgK)
  }

  function RouteQkv(tgid: nat, tgQ: nat, tgK: nat): Route {
    if tgid < tgQ then Route(Q, tgid)
    else if tgid < tgQ + tgK then Route(K, tgid - tgQ)
    else Route(V, tgid - tgQ - tgK)
  }

  // Where bank b's threadgroups start, and its rows.
  function Base(b: BankId, tgQ: nat, tgK: nat): nat {
    match b
    case Q => 0
    case K => tgQ
    case V => tgQ + tgK
  }

  // Exactly one simdgroup of the grid owns a row of a bank: in a Q/K/V dispatch ...
  lemma {:induction false} RouteQkvOwner(b: BankId, row: nat, tgid: nat, sgid: nat, rowsQ: nat, rowsKv: nat)
    requires row < (if b == Q then rowsQ else rowsKv) && sgid < SIMD_SG_PER_TG
    ensures var tgQ, tgK := Threadgroups(rowsQ), Threadgroups(rowsKv);
            var r := RouteQkv(tgid, tgQ, tgK);
            Base(b, tgQ, tgK) + row / 8 < tgQ + 2 * tgK
            && (r.bank == b && Row0(r.localTg, sgid) <= row < Row0(r.localTg, sgid) + SIMD_ROWS <==>
                tgid == Base(b, tgQ, tgK) + row / 8 && sgid == row % 8 / 4)
  {
    var tgQ, tgK := Threadgroups(rowsQ), Threadgroups(rowsKv);
    OwnerExists(if b == Q then rowsQ else rowsKv, row);
    RowOwner(RouteQkv(tgid, tgQ, tgK).localTg, sgid, row);
  }

  // ... and in a K/V dispatch.
  lemma {:induction false} RouteKvOwner(b: BankId, row: nat, tgid: nat, sgid: nat, rows: nat)
    requires b != Q && row < rows && sgid < SIMD_SG_PER_TG
    ensures var tgK := Threadgroups(rows);
            var r := RouteKv(tgid, tgK);
            Base(b, 0, tgK) + row / 8 < 2 * tgK
            && (r.bank == b && Row0(r.localTg, sgid) <= row < Row0(r.localTg, sgid) + SIMD_ROWS <==>
                tgid == Base(b, 0, tgK) + row / 8 && sgid == row % 8 / 4)
  {
    OwnerExists(rows, row);
    RowOwner(RouteKv(tgid, Threadgroups(rows)).localTg, sgid, row);
  }

  // One bank of a dispatch: its weights, shape and output.
  datatype Job = Job(s: Shape, bank: Bank)
  {
    predicate Ready(l: Q4Layout, x: seq<real>) { s.Valid() && Holds(s, l, bank) && s.cols <= |x| }

    ghost function Row(l: Q4Layout, x: seq<real>, row: nat): real
      requires Ready(l, x) && row < s.rows
    {
      Dot(s, l, bank, x, row)
    }
  }

  // One threadgroup of a bank: both simdgroups, eight rows at most.
  method Threadgroup(j: Job, l: Q4Layout, x: seq<real>, out: array<real>, localTg: nat)
    requires j.Ready(l, x) && j.s.rows <= out.Length
    modifies out
    ensures Wrote(out[..], old(out[..]), j.s, l, Store, [j.bank], x, [], 8 * localTg, 8 * localTg + 8)
  {
    ghost var was := out[..];
    SimdGemv(j.s, l, Store, [j.bank], x, out, [], Row0(localTg, 0));
    SimdGemv(j.s, l, Store, [j.bank], x, out, [], Row0(localTg, 1));
  }

  // Rows whose threadgroup has run hold their product; the others are untouched.
  ghost predicate Progress(now: seq<real>, was: seq<real>, j: Job, l: Q4Layout, x: seq<real>, base: nat, todo: set<nat>)
    requires j.Ready(l, x)
  {
    |now| == |was| >= j.s.rows
    && forall i :: 0 <= i < |now| ==>
         now[i] == if i < j.s.rows && (base + i / 8) !in todo then j.Row(l, x, i) else was[i]
  }

  lemma {:induction false} RanOne(now: seq<real>, mid: seq<real>, was: seq<real>, j: Job, l: Q4Layout, x: seq<real>, base: nat,
                                  todo: set<nat>, localTg: nat)
    requires j.Ready(l, x) && Progress(mid, was, j, l, x, base, todo) && base + localTg in todo
    requires Wrote(now, mid, j.s, l, Store, [j.bank], x, [], 8 * localTg, 8 * localTg + 8)
    ensures Progress(now, was, j, l, x, base, todo - {base + localTg})
  {
    forall i | 0 <= i < |now|
      ensures now[i] == if i < j.s.rows && (base + i / 8) !in todo - {base + localTg} then j.Row(l, x, i) else was[i]
    {
      assert 8 * localTg <= i < 8 * localTg + 8 <==> i / 8 == localTg;
    }
  }

  lemma {:induction false} NotRun(now: seq<real>, was: seq<real>, j: Job, l: Q4Layout, x: seq<real>, base: nat, todo: set<nat>, tgid: nat)
    requires j.Ready(l, x) && Progress(now, was, j, l, x, base, todo)
    requires tgid < base || tgid >= base + Threadgroups(j.s.rows)
    ensures Progress(now, was, j, l, x, base, todo - {tgid})
  {
    forall i | 0 <= i < j.s.rows ensures base + i / 8 != tgid {
      OwnerExists(j.s.rows, i);
    }
  }

  // The grid: threadgroups 0, ..., n - 1.
  function Grid(n: nat): (g: set<nat>)
    ensures forall t: nat :: t in g <==> t < n
  {
    if n == 0 then {} else Grid(n - 1) + {n - 1}
  }

  // The three outputs, with the threadgroups of `todo` still to run.
  ghost predicate AllProgress(now: (seq<real>, seq<real>, seq<real>), was: (seq<real>, seq<real>, seq<real>),
                              q: Job, k: Job, v: Job, l: Q4Layout, x: seq<real>, todo: set<nat>)
    requires q.Ready(l, x) && k.Ready(l, x) && v.Ready(l, x)
  {
    var tgQ, tgK := Threadgroups(q.s.rows), Threadgroups(k.s.rows);
    Progress(now.0, was.0, q, l, x, 0, todo) && Progress(now.1, was.1, k, l, x, tgQ, todo)
    && Progress(now.2, was.2, v, l, x, tgQ + tgK, todo)
  }

  // One threadgroup of the grid.
  method RunTgid(q: Job, k: Job, v: Job, l: Q4Layout, x: seq<real>, qOut: array<real>, kOut: array<real>, vOut: array<real>,
                 tgid: nat, ghost was: (seq<real>, seq<real>, seq<real>), ghost todo: set<nat>)
    requires q.Ready(l, x) && k.Ready(l, x) && v.Ready(l, x) && k.s.rows == v.s.rows
    requires qOut != kOut && qOut != vOut && kOut != vOut && tgid in todo
    requires tgid < Threadgroups(q.s.rows) + 2 * Threadgroups(k.s.rows)
    requires AllProgress((qOut[..], kOut[..], vOut[..]), was, q, k, v, l, x, todo)
    modifies qOut, kOut, vOut
    ensures AllProgress((qOut[..], kOut[..], vOut[..]), was, q, k, v, l, x, todo - {tgid})
  {
    var tgQ, tgK := Threadgroups(q.s.rows), Threadgroups(k.s.rows);
    var r := RouteQkv(tgid, tgQ, tgK);
    ghost var before := (qOut[..], kOut[..], vOut[..]);
    if r.bank != Q {
      NotRun(qOut[..], was.0, q, l, x, 0, todo, tgid);
    }
    if r.bank != K {
      NotRun(kOut[..], was.1, k, l, x, tgQ, todo, tgid);
    }
    if r.bank != V {
      NotRun(vOut[..], was.2, v, l, x, tgQ + tgK, todo, tgid);
    }
    match r.bank {
      case Q =>
        Threadgroup(q, l, x, qOut, r.localTg);
        RanOne(qOut[..], before.0, was.0, q, l, x, 0, todo, r.localTg);
      case K =>
        Threadgroup(k, l, x, kOut, r.localTg);
        RanOne(kOut[..], before.1, was.1, k, l, x, tgQ, todo, r.localTg);
      case V =>
        Threadgroup(v, l, x, vOut, r.localTg);
        RanOne(vOut[..], before.2, was.2, v, l, x, tgQ + tgK, todo, r.localTg);
    }
  }

  // The Q/K/V dispatch: every threadgroup of the grid, in any order. Every row of every bank is computed, and
  // nothing past the rows of a bank is written.
  method DispatchQkv(q: Job, k: Job, v: Job, l: Q4Layout, x: seq<real>, qOut: array<real>, kOut: array<real>, vOut: array<real>)
    requires q.Ready(l, x) && k.Ready(l, x) && v.Ready(l, x) && k.s.rows == v.s.rows
    requires q.s.rows <= qOut.Length && k.s.rows <= kOut.Length && v.s.rows <= vOut.Length
    requires qOut != kOut && qOut != vOut && kOut != vOut
    modifies qOut, kOut, vOut
    ensures Computed(qOut[..], old(qOut[..]), q, l, x)
    ensures Computed(kOut[..], old(kOut[..]), k, l, x)
    ensures Computed(vOut[..], old(vOut[..]), v, l, x)
  {
    var tgQ, tgK := Threadgroups(q.s.rows), Threadgroups(k.s.rows);
    var todo := Grid(tgQ + 2 * tgK);
    ghost var was := (qOut[..], kOut[..], vOut[..]);
    AllTodo(qOut[..], q, l, x, 0, todo);
    AllTodo(kOut[..], k, l, x, tgQ, todo);
    AllTodo(vOut[..], v, l, x, tgQ + tgK, todo);
    while todo != {}
      invariant todo <= Grid(tgQ + 2 * tgK)
      invariant AllProgress((qOut[..], kOut[..], vOut[..]), was, q, k, v, l, x, todo)
      decreases |todo|
    {
      var tgid :| tgid in todo;
      RunTgid(q, k, v, l, x, qOut, kOut, vOut, tgid, was, todo);
      todo := todo - {tgid};
    }
  }

  // Every row holds its product; what lies past the rows is as it was.
  ghost predicate Computed(now: seq<real>, was: seq<real>, j: Job, l: Q4Layout, x: seq<real>)
    requires j.Ready(l, x)
  {
    |now| == |was| >= j.s.rows && forall i :: 0 <= i < |now| ==> now[i] == if i < j.s.rows then j.Row(l, x, i) else was[i]
  }

  lemma {:induction false} AllTodo(now: seq<real>, j: Job, l: Q4Layout, x: seq<real>, base: nat, todo: set<nat>)
    requires j.Ready(l, x) && |now| >= j.s.rows && forall t: nat :: base <= t < base + Threadgroups(j.s.rows) ==> t in todo
    ensures Progress(now, now, j, l, x, base, todo)
  {
    forall i | 0 <= i < j.s.rows ensures base + i / 8 in todo {
      OwnerExists(j.s.rows, i);
    }
  }
}
