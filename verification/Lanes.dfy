// Threadgroup lanes between two barriers. A phase is run by picking, over and over, any lane that still
// has iterations left and executing its next one; what a phase promises holds for every such order.
module Lanes {
  import opened Common

  // Iterations left over all lanes, when lane i still has to cover [pc[i], n).
  ghost function Work(pc: seq<nat>, n: nat): nat {
    if pc == [] then 0
    else Work(pc[..|pc| - 1], n) + if pc[|pc| - 1] < n then n - pc[|pc| - 1] else 0
  }

  lemma {:induction false} WorkDrops(pc: seq<nat>, lane: nat, next: nat, n: nat)
    requires lane < |pc| && pc[lane] < n && pc[lane] < next
    ensures Work(pc[lane := next], n) < Work(pc, n)
  {
    var pc' := pc[lane := next];
    if lane == |pc| - 1 {
      assert pc'[..|pc| - 1] == pc[..|pc| - 1];
    } else {
      WorkDrops(pc[..|pc| - 1], lane, next, n);
      assert pc'[..|pc| - 1] == pc[..|pc| - 1][lane := next];
    }
  }

  // Two iterations of one lane are a whole stride apart.
  lemma {:induction false} StrideGap(i: nat, j: nat, p: nat)
    requires p > 0 && i % p == j % p && i < j
    ensures i + p <= j
  {
    var qi, qj := i / p, j / p;
    assert i == qi * p + i % p && j == qj * p + j % p;
    if qj <= qi {
      MulMono(qj, qi, p);
      assert false;
    }
    MulMono(qi + 1, qj, p);
  }

  lemma {:induction false} StrideStep(i: nat, p: nat)
    requires p > 0
    ensures (i + p) % p == i % p
  {
    var q, r := i / p, i % p;
    assert i + p == (q + 1) * p + r;
    ModUnique(i + p, q + 1, r, p);
  }

  lemma {:induction false} ModUnique(x: nat, q: nat, r: nat, p: nat)
    requires p > 0 && r < p && x == q * p + r
    ensures x % p == r && x / p == q
  {
    var q', r' := x / p, x % p;
    assert x == q' * p + r';
    if q' < q {
      MulMono(q' + 1, q, p);
    } else if q < q' {
      MulMono(q + 1, q', p);
    }
  }

  // Which lane executes iteration i of a strided loop: i mod the number of lanes.
  lemma {:induction false} Owners(n: nat, p: nat) returns (owner: seq<nat>)
    requires p > 0
    ensures |owner| == n && forall i :: 0 <= i < n ==> owner[i] < p
    ensures forall i :: 0 <= i < n && i < p ==> owner[i] == i
    ensures forall i :: 0 <= i && i + p < n ==> owner[i + p] == owner[i]
    ensures forall i, j :: 0 <= i < j < n && owner[i] == owner[j] ==> i + p <= j
  {
    owner := seq(n, i requires 0 <= i => i % p);
    forall i | 0 <= i < n && i < p ensures owner[i] == i {
      ModUnique(i, 0, i, p);
    }
    forall i | 0 <= i && i + p < n ensures owner[i + p] == owner[i] {
      StrideStep(i, p);
    }
    forall i, j | 0 <= i < j < n && owner[i] == owner[j] ensures i + p <= j {
      StrideGap(i, j, p);
    }
  }

  // Lane lid is at one of its own iterations, or past the last.
  ghost predicate OnTrack(owner: seq<nat>, pc: seq<nat>, lid: nat)
    requires lid < |pc|
  {
    pc[lid] < |owner| ==> owner[pc[lid]] == lid
  }

  lemma {:induction false} InRows(i: nat, rows: nat, width: nat)
    requires width > 0 && i < rows * width
    ensures i / width < rows
  {
    var q := i / width;
    assert i == q * width + i % width;
    if q >= rows {
      MulMono(rows, q, width);
    }
  }

  lemma {:induction false} CellAt(r: nat, c: nat, rows: nat, width: nat) returns (i: nat)
    requires r < rows && c < width
    ensures i < rows * width && i / width == r && i % width == c
  {
    i := r * width + c;
    MulMono(r + 1, rows, width);
    ModUnique(i, r, c, width);
  }

  lemma {:induction false} CellsDiffer(i: nat, j: nat, width: nat)
    requires width > 0 && i != j
    ensures i / width != j / width || i % width != j % width
  {
    assert i == (i / width) * width + i % width && j == (j / width) * width + j % width;
  }

  // The cells of a row-major tile, in the order a flat index visits them.
  lemma {:induction false} TileCells(n: nat, rows: nat, width: nat) returns (row: seq<nat>, col: seq<nat>)
    requires width > 0 && n == rows * width
    ensures |row| == |col| == n
    ensures forall i :: 0 <= i < n ==> row[i] == i / width < rows && col[i] == i % width < width
    ensures forall r: nat, c: nat :: r < rows && c < width ==> InTile(row, col, r, c)
    ensures forall i, j :: 0 <= i < j < n ==> row[i] != row[j] || col[i] != col[j]
  {
    row := seq(n, i requires 0 <= i => i / width);
    col := seq(n, i requires 0 <= i => i % width);
    forall i | 0 <= i < n ensures i / width < rows {
      InRows(i, rows, width);
    }
    forall r: nat, c: nat | r < rows && c < width ensures InTile(row, col, r, c) {
      var i := CellAt(r, c, rows, width);
      assert row[i] == r && col[i] == c;
    }
    forall i, j | 0 <= i < j < n ensures row[i] != row[j] || col[i] != col[j] {
      CellsDiffer(i, j, width);
    }
  }

  ghost predicate InTile(row: seq<nat>, col: seq<nat>, r: nat, c: nat) {
    exists i :: 0 <= i < |row| && i < |col| && row[i] == r && col[i] == c
  }

  // for (i = lid; i < rows * width; i += tptg) dst[i / width, i % width] = value(i / width, i % width),
  // on tptg lanes in any order.
  method StridedStore(dst: array2<real>, rows: nat, width: nat, tptg: nat, value: (nat, nat) --> real)
    requires tptg > 0 && width > 0 && rows <= dst.Length0 && width <= dst.Length1
    requires forall r: nat, c: nat :: r < rows && c < width ==> value.requires(r, c)
    modifies dst
    ensures forall r: nat, c: nat :: r < rows && c < width ==> dst[r, c] == value(r, c)
  {
    var n := rows * width;
    ghost var owner := Owners(n, tptg);
    ghost var row, col := TileCells(n, rows, width);
    ghost var want := seq(n, i requires 0 <= i < n => value(row[i], col[i]));
    var pc: seq<nat> := seq(tptg, i => i);
    while exists lid :: 0 <= lid < tptg && pc[lid] < n
      invariant |pc| == tptg
      invariant forall lid: nat :: lid < tptg ==> OnTrack(owner, pc, lid)
      invariant forall i :: 0 <= i < n && i < pc[owner[i]] ==> dst[row[i], col[i]] == want[i]
      decreases Work(pc, n)
    {
      var lid :| 0 <= lid < tptg && pc[lid] < n;
      assert OnTrack(owner, pc, lid);
      var i: nat := pc[lid];
      var next: nat := i + tptg;
      ghost var was := pc;
      var r: nat, c: nat := i / width, i % width;
      assert row[i] == r && col[i] == c;
      dst[r, c] := value(r, c);
      pc := pc[lid := next];
      WorkDrops(was, lid, next, n);
      forall other: nat | other < tptg ensures OnTrack(owner, pc, other) {
        assert OnTrack(owner, was, other);
      }
      forall j | 0 <= j < n && j < pc[owner[j]] ensures dst[row[j], col[j]] == want[j] {
        if owner[j] == lid && i < j {
          assert false;
        } else if j != i {
          assert j < was[owner[j]];
        }
      }
    }
    forall r: nat, c: nat | r < rows && c < width ensures dst[r, c] == value(r, c) {
      assert InTile(row, col, r, c);
      var i :| 0 <= i < n && row[i] == r && col[i] == c;
      assert i < pc[owner[i]];
    }
  }
}
