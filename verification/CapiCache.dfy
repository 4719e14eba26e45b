// The cross-entropy workspace a handle caches (src/capi.rs): which calls keep it, and how often it is rebuilt.
module CapiCache {
  import opened Common
  import opened CapiGuard

  const U32: nat := 0x1_0000_0000
  const DEFAULT_CHUNK: nat := 4096

  datatype DType = F32 | BF16 | F16

  // What a workspace is for: hidden width, chunk, weight type and operand code.
  datatype Key = Key(hidden: nat, chunk: nat, dtype: DType, operands: nat)

  // Its size, its key, and the buffers it is made of.
  datatype Workspace = Workspace(maxRows: nat, key: Key, bufs: set<nat>)

  // A tensor a caller names: the descriptor may be refused, the tensor invalid or on another runtime. It lies in
  // buffer `buf` from byte `at`.
  datatype TensorRef = Unwrappable(message: string)
                     | Tensor(shape: seq<nat>, dtype: DType, valid: bool, ours: bool, buf: nat, at: nat)

  function Elements(shape: seq<nat>): nat {
    if shape == [] then 1 else Elements(shape[..|shape| - 1]) * shape[|shape| - 1]
  }

  function Bytes(t: TensorRef): nat
    requires t.Tensor?
  {
    Elements(t.shape) * if t.dtype == F32 then 4 else 2
  }

  predicate Overlaps(t: TensorRef, u: TensorRef)
    requires t.Tensor? && u.Tensor?
  {
    t.buf == u.buf && t.at < u.at + Bytes(u) && u.at < t.at + Bytes(t)
  }

  // Byte x of its buffer is the tensor's.
  ghost predicate HasByte(t: TensorRef, x: nat)
    requires t.Tensor?
  {
    t.at <= x < t.at + Bytes(t)
  }

  // Main: two tensors that have elements overlap exactly when some byte of one buffer is both of theirs.
  lemma {:induction false} OverlapsIff(t: TensorRef, u: TensorRef)
    requires t.Tensor? && u.Tensor? && Bytes(t) > 0 && Bytes(u) > 0
    ensures Overlaps(t, u) <==> t.buf == u.buf && exists x :: HasByte(t, x) && HasByte(u, x)
  {
    if Overlaps(t, u) {
      var x := if t.at < u.at then u.at else t.at;
      assert HasByte(t, x) && HasByte(u, x);
    }
  }

  // A matrix is four or two bytes for each of its elements.
  lemma {:induction false} MatrixBytes(t: TensorRef)
    requires t.Tensor? && |t.shape| == 2
    ensures Bytes(t) == t.shape[0] * t.shape[1] * if t.dtype == F32 then 4 else 2
  {
    var one := t.shape[..1];
    assert one[..0] == [] && Elements(one[..0]) == 1;
    assert Elements(one) == t.shape[0];
  }

  // A caller's array of u32: absent, misaligned, or its elements.
  datatype Ints = Null | Misaligned | Ints(s: seq<nat>)

  datatype Args = Args(n: nat, rows: Ints, targets: Ints, hidden: TensorRef, weight: TensorRef, colOff: nat, reduction: nat,
                       operands: nat, chunk: nat, wantGrads: bool, scaleFinite: bool, dh: TensorRef, dw: TensorRef)
  {
    // The pointers cover n elements, as the caller's contract says.
    ghost predicate Covered() {
      (rows.Ints? ==> |rows.s| == n) && (targets.Ints? ==> |targets.s| == n)
    }
  }

  // ---------- which calls are accepted ----------

  predicate Matrix(t: TensorRef) {
    t.Tensor? && t.valid && t.ours && |t.shape| == 2 && t.dtype != F16
  }

  predicate IsGrad(t: TensorRef, rows: nat, cols: nat) {
    t.Tensor? && t.valid && t.ours && t.dtype == F32 && t.shape == [rows, cols]
  }

  // Everything that is checked before the cached workspace is looked at, in no order. `relaxed` is the runtime's
  // relaxed-precision switch.
  ghost predicate Admissible(a: Args, relaxed: bool) {
    0 < a.n < U32 && a.rows.Ints? && a.targets.Ints? && a.reduction < 2 && a.operands < 2 && !relaxed
    && Matrix(a.hidden) && Matrix(a.weight)
    && 0 < a.weight.shape[0] < U32 && a.weight.shape[1] < U32 && a.hidden.shape[0] < U32 && a.hidden.shape[1] < U32
    && a.colOff + a.weight.shape[1] <= a.hidden.shape[1]
    && (forall r <- a.rows.s :: r < a.hidden.shape[0]) && (forall t <- a.targets.s :: t < a.weight.shape[0])
    && (a.wantGrads ==> IsGrad(a.dh, a.n, a.weight.shape[1]) && IsGrad(a.dw, a.weight.shape[0], a.weight.shape[1]))
  }

  // The key of an accepted call.
  function KeyOf(a: Args): Key
    requires a.weight.Tensor? && |a.weight.shape| == 2
  {
    Key(a.weight.shape[1], Min(if a.chunk == 0 then DEFAULT_CHUNK else a.chunk, a.weight.shape[0]), a.weight.dtype, a.operands)
  }

  function NextPow2From(p: nat, n: nat): (q: nat)
    requires p > 0
    ensures q >= n && q >= p
    decreases if n > p then n - p else 0
  {
    if p >= n then p else NextPow2From(2 * p, n)
  }

  function RowsFor(n: nat): (m: nat)
    ensures m >= n
  {
    var p := NextPow2From(1, n);
    if p < U32 then p else n
  }

  // CeWorkspace::new: the widths it refuses, and the allocator's own refusal. `alloc` is the buffers it would get.
  predicate Buildable(k: Key, alloc: Option<set<nat>>) {
    k.hidden > 0 && k.hidden % 8 == 0 && k.chunk > 0 && k.dtype != F16 && alloc.Some?
  }

  // Main: the workspace an accepted call asks for: its width, type and operands, and its chunk, 4096 when it names none, cut
  // to the vocabulary. It can be made exactly when the width is a nonzero multiple of 8 and the allocator has the buffers.
  lemma {:induction false} KeyNames(a: Args, relaxed: bool, alloc: Option<set<nat>>)
    requires Admissible(a, relaxed)
    ensures var k, vocab := KeyOf(a), a.weight.shape[0];
            k.hidden == a.weight.shape[1] && k.dtype == a.weight.dtype && k.operands == a.operands && 0 < k.chunk <= vocab
            && (0 < a.chunk <= vocab ==> k.chunk == a.chunk) && (a.chunk > vocab ==> k.chunk == vocab)
            && (a.chunk == 0 && vocab >= 4096 ==> k.chunk == 4096) && (a.chunk == 0 && vocab < 4096 ==> k.chunk == vocab)
    ensures Buildable(KeyOf(a), alloc) <==> alloc.Some? && a.weight.shape[1] > 0 && exists w: nat :: a.weight.shape[1] == 8 * w
  {
    if a.weight.shape[1] % 8 == 0 {
      assert a.weight.shape[1] == 8 * (a.weight.shape[1] / 8);
    }
  }

  // ---------- one call, as a step of the cache ----------

  datatype Cache = Cache(ws: Option<Workspace>, key: Key, builds: nat)

  datatype Use = Refused | Admitted(rows: nat, key: Key, alloc: Option<set<nat>>)

  predicate Fits(c: Cache, u: Use)
    requires u.Admitted?
  {
    c.ws.Some? && c.ws.value.maxRows >= u.rows && c.key == u.key
  }

  predicate Builds(c: Cache, u: Use) { u.Admitted? && !Fits(c, u) && Buildable(u.key, u.alloc) }

  // The call drops the cached workspace and cannot make another.
  predicate Loses(c: Cache, u: Use) { u.Admitted? && !Fits(c, u) && !Buildable(u.key, u.alloc) }

  function Next(c: Cache, u: Use): Cache {
    if Builds(c, u) then Cache(Some(Workspace(RowsFor(u.rows), u.key, u.alloc.value)), u.key, c.builds + 1)
    else if Loses(c, u) then c.(ws := None)
    else c
  }

  // ---------- what cross_entropy_rows still refuses ----------

  // One gradient output against everything it must not share memory with.
  predicate Apart(out: TensorRef, a: Args, ws: Workspace)
    requires out.Tensor? && a.hidden.Tensor? && a.weight.Tensor?
  {
    !Overlaps(out, a.hidden) && !Overlaps(out, a.weight) && out.buf !in ws.bufs
  }

  // The checks made on the workspace the call runs with, after it may have been rebuilt.
  predicate Runnable(a: Args, ws: Workspace)
    requires a.hidden.Tensor? && a.weight.Tensor? && |a.weight.shape| == 2 && (a.wantGrads ==> a.dh.Tensor? && a.dw.Tensor?)
  {
    a.n <= ws.maxRows && a.weight.shape[1] == ws.key.hidden && a.weight.dtype == ws.key.dtype && a.operands == ws.key.operands
    && (a.wantGrads ==> a.scaleFinite && !Overlaps(a.dh, a.dw) && Apart(a.dh, a, ws) && Apart(a.dw, a, ws))
  }

  // Tensor::overlaps.
  method OverlapsNow(t: TensorRef, u: TensorRef) returns (yes: bool)
    requires t.Tensor? && u.Tensor?
    ensures yes == Overlaps(t, u)
  {
    if t.buf != u.buf { return false; }
    var tEnd, uEnd := t.at + Bytes(t), u.at + Bytes(u);
    return t.at < uEnd && u.at < tEnd;
  }

  // `ran` is what the work itself returns, once nothing refuses it.
  method CrossEntropyRows(a: Args, ws: Workspace, ran: Called) returns (r: Called)
    requires a.hidden.Tensor? && a.weight.Tensor? && |a.weight.shape| == 2 && (a.wantGrads ==> a.dh.Tensor? && a.dw.Tensor?)
    ensures r.Computed? <==> Runnable(a, ws) && ran.Computed?
  {
    if a.n > ws.maxRows { return Rejected("rows exceed the workspace's"); }
    if a.weight.shape[1] != ws.key.hidden || a.weight.dtype != ws.key.dtype {
      return Rejected("workspace is for another width or weight type");
    }
    if a.operands != ws.key.operands { return Rejected("workspace is for other operands"); }
    if a.wantGrads {
      if !a.scaleFinite { return Rejected("scale must be finite"); }
      var bad := OverlapsNow(a.dh, a.dw);
      if bad { return Rejected("dh and dw overlap"); }
      bad := OverlapsNow(a.dh, a.hidden);
      if bad { return Rejected("dh overlaps hidden"); }
      bad := OverlapsNow(a.dh, a.weight);
      if bad { return Rejected("dh overlaps weight"); }
      if a.dh.buf in ws.bufs { return Rejected("dh aliases the workspace"); }
      bad := OverlapsNow(a.dw, a.hidden);
      if bad { return Rejected("dw overlaps hidden"); }
      bad := OverlapsNow(a.dw, a.weight);
      if bad { return Rejected("dw overlaps weight"); }
      if a.dw.buf in ws.bufs { return Rejected("dw aliases the workspace"); }
    }
    return ran;
  }

  // ---------- the call itself ----------

  datatype Called = Computed | Rejected(message: string)

  // What the call does to the cache, and whether it succeeds.
  ghost function UseOf(a: Args, relaxed: bool, alloc: Option<set<nat>>): Use {
    if Admissible(a, relaxed) then Admitted(a.n, KeyOf(a), alloc) else Refused
  }

  ghost predicate Succeeds(c: Cache, a: Args, relaxed: bool, alloc: Option<set<nat>>, ran: Called) {
    Admissible(a, relaxed) && ran.Computed?
    && var d := Next(c, UseOf(a, relaxed, alloc)); d.ws.Some? && Runnable(a, d.ws.value)
  }

  method CallKey(a: Args) returns (key: Key)
    requires a.weight.Tensor? && |a.weight.shape| == 2
    ensures key == KeyOf(a)
  {
    var chunk := if a.chunk == 0 then DEFAULT_CHUNK else a.chunk;
    if chunk > a.weight.shape[0] {
      chunk := a.weight.shape[0];
    }
    key := Key(a.weight.shape[1], chunk, a.weight.dtype, a.operands);
  }

  // CeWorkspace::new, with room for a power of two of rows.
  method NewWorkspace(key: Key, rows: nat, alloc: Option<set<nat>>) returns (ws: Option<Workspace>)
    ensures ws.Some? <==> Buildable(key, alloc)
    ensures ws.Some? ==> ws.value == Workspace(RowsFor(rows), key, alloc.value)
  {
    if key.hidden == 0 || key.chunk == 0 || key.hidden % 8 != 0 || key.dtype == F16 || alloc.None? {
      return None;
    }
    return Some(Workspace(RowsFor(rows), key, alloc.value));
  }

  class TesslRuntime {
    var ceWs: Option<Workspace>
    var ceWsKey: Key
    var ceBuilds: nat

    function Cached(): Cache
      reads this
    {
      Cache(ceWs, ceWsKey, ceBuilds)
    }

    constructor ()
      ensures Cached() == Cache(None, Key(0, 0, F32, 0), 0)
    {
      ceWs, ceWsKey, ceBuilds := None, Key(0, 0, F32, 0), 0;
    }

    method Ce(a: Args, relaxed: bool, alloc: Option<set<nat>>, ran: Called) returns (r: Called)
      requires a.Covered()
      modifies this
      ensures Cached() == Next(old(Cached()), UseOf(a, relaxed, alloc))
      ensures r.Computed? <==> Succeeds(old(Cached()), a, relaxed, alloc, ran)
      ensures r.Rejected? ==>
        (Cached() == old(Cached()) <==>
         !Admissible(a, relaxed) || old(Fits(Cached(), Admitted(a.n, KeyOf(a), alloc)))
         || (old(ceWs).None? && !Buildable(KeyOf(a), alloc)))
    {
      var bad := Check(a, relaxed);
      if bad.Rejected? {
        return bad;
      }
      var key := CallKey(a);
      var fits := ceWs.Some? && ceWs.value.maxRows >= a.n && ceWsKey == key;
      if !fits {
        ceWs := None;
        var ws := NewWorkspace(key, a.n, alloc);
        if ws.None? {
          return Rejected("CeWorkspace");
        }
        ceWs := ws;
        ceWsKey := key;
        ceBuilds := ceBuilds + 1;
      }
      r := CrossEntropyRows(a, ceWs.value, ran);
    }
  }

  // The checks of the call's own arguments, in the order they are made.
  method CheckArgs(a: Args) returns (r: Called)
    ensures r.Computed? <==> 0 < a.n < U32 && a.rows.Ints? && a.targets.Ints? && a.reduction < 2 && a.operands < 2
                             && a.hidden.Tensor? && a.weight.Tensor? && |a.weight.shape| == 2 && a.weight.shape[1] < U32
  {
    if a.n == 0 { return Rejected("no supervised rows"); }
    if a.rows.Null? || a.targets.Null? { return Rejected("null rows or targets"); }
    if a.n >= U32 { return Rejected("rows exceed u32"); }
    if a.rows.Misaligned? { return Rejected("rows is not aligned"); }
    if a.targets.Misaligned? { return Rejected("targets is not aligned"); }
    if a.reduction >= 2 { return Rejected("reduction is neither 0 nor 1"); }
    if a.operands >= 2 { return Rejected("operands code is neither 0 nor 1"); }
    if a.hidden.Unwrappable? { return Rejected(a.hidden.message); }
    if a.weight.Unwrappable? { return Rejected(a.weight.message); }
    if |a.weight.shape| != 2 { return Rejected("weight must be 2-D"); }
    if a.weight.shape[1] >= U32 { return Rejected("hidden exceeds u32"); }
    return Computed;
  }

  method CheckTensor(t: TensorRef) returns (r: Called)
    requires t.Tensor?
    ensures r.Computed? <==> Matrix(t)
  {
    if !t.valid { return Rejected("invalid tensor"); }
    if !t.ours { return Rejected("belongs to another runtime"); }
    if |t.shape| != 2 || t.dtype == F16 { return Rejected("must be a 2-D f32 or bf16 tensor"); }
    return Computed;
  }

  method CheckGrad(t: TensorRef, rows: nat, cols: nat) returns (r: Called)
    ensures r.Computed? <==> IsGrad(t, rows, cols)
  {
    if t.Unwrappable? { return Rejected(t.message); }
    if !t.valid { return Rejected("invalid tensor"); }
    if !t.ours { return Rejected("belongs to another runtime"); }
    if t.dtype != F32 || |t.shape| != 2 || t.shape[0] != rows || t.shape[1] != cols { return Rejected("must be f32 of that shape"); }
    return Computed;
  }

  // Whether every index is below the bound, found at the first that is not.
  method AllBelow(s: seq<nat>, bound: nat) returns (ok: bool)
    ensures ok <==> forall x <- s :: x < bound
  {
    for i := 0 to |s|
      invariant forall j :: 0 <= j < i ==> s[j] < bound
    {
      if s[i] >= bound {
        assert s[i] in s;
        return false;
      }
    }
    return true;
  }

  // validate_ce_inputs, on arguments CheckArgs let through.
  method CheckInputs(a: Args, relaxed: bool) returns (r: Called)
    requires a.Covered() && a.rows.Ints? && a.targets.Ints? && a.hidden.Tensor? && a.weight.Tensor?
    requires a.n > 0 && |a.weight.shape| == 2 && a.weight.shape[1] < U32
    ensures r.Computed? <==>
            !relaxed && Matrix(a.hidden) && Matrix(a.weight) && a.weight.shape[0] > 0
            && a.weight.shape[0] < U32 && a.hidden.shape[0] < U32 && a.hidden.shape[1] < U32
            && a.colOff + a.weight.shape[1] <= a.hidden.shape[1]
            && (forall x <- a.rows.s :: x < a.hidden.shape[0]) && (forall t <- a.targets.s :: t < a.weight.shape[0])
  {
    if relaxed { return Rejected("needs exact-f32 GEMMs"); }
    r := CheckTensor(a.hidden);
    if r.Rejected? { return r; }
    r := CheckTensor(a.weight);
    if r.Rejected? { return r; }
    if a.weight.shape[0] == 0 { return Rejected("empty vocabulary"); }
    if a.weight.shape[0] >= U32 || a.hidden.shape[0] >= U32 || a.hidden.shape[1] >= U32 {
      return Rejected("vocabulary, rows and ld must fit u32");
    }
    if a.colOff + a.weight.shape[1] > a.hidden.shape[1] { return Rejected("hidden window exceeds ld"); }
    var ok := AllBelow(a.rows.s, a.hidden.shape[0]);
    if !ok { return Rejected("a row is past the hidden rows"); }
    ok := AllBelow(a.targets.s, a.weight.shape[0]);
    if !ok { return Rejected("a target is past the vocabulary"); }
    return Computed;
  }

  // Every check before the cached workspace is looked at: all of them and no others.
  method Check(a: Args, relaxed: bool) returns (r: Called)
    requires a.Covered()
    ensures r.Computed? <==> Admissible(a, relaxed)
  {
    r := CheckArgs(a);
    if r.Rejected? { return r; }
    r := CheckInputs(a, relaxed);
    if r.Rejected? { return r; }
    if a.wantGrads {
      r := CheckGrad(a.dh, a.n, a.weight.shape[1]);
      if r.Rejected? { return r; }
      r := CheckGrad(a.dw, a.weight.shape[0], a.weight.shape[1]);
      if r.Rejected? { return r; }
    }
    return Computed;
  }

  // ---------- a sequence of calls ----------

  function After(c: Cache, us: seq<Use>, i: nat): Cache
    requires i <= |us|
  {
    if i == 0 then c else Next(After(c, us, i - 1), us[i - 1])
  }

  function Losses(c: Cache, us: seq<Use>, i: nat): nat
    requires i <= |us|
  {
    if i == 0 then 0 else Losses(c, us, i - 1) + if Loses(After(c, us, i - 1), us[i - 1]) then 1 else 0
  }

  const EMPTY: Cache := Cache(None, Key(0, 0, F32, 0), 0)

  ghost predicate Matches(c: Cache) { c.ws.Some? ==> c.ws.value.key == c.key }

  // Main: after any calls, a present workspace is the one the stored key says, and has room for the call that built it.
  lemma {:induction false} KeyMatches(us: seq<Use>, i: nat)
    requires i <= |us|
    ensures Matches(After(EMPTY, us, i))
    ensures i > 0 && us[i - 1].Admitted? && After(EMPTY, us, i).ws.Some? ==>
              After(EMPTY, us, i).ws.value.maxRows >= us[i - 1].rows && After(EMPTY, us, i).key == us[i - 1].key
  {
    if i > 0 { KeyMatches(us, i - 1); }
  }

  // ---------- a refused call ----------

  // Main: the source says a refused call keeps the cached workspace and allocates nothing. A call that fails leaves the
  // cache as it was exactly when it fails one of the checks before the cache, or fits the workspace there, or finds none
  // and can make none.
  lemma {:induction false} RefusedKeepsIff(c: Cache, a: Args, relaxed: bool, alloc: Option<set<nat>>, ran: Called)
    requires !Succeeds(c, a, relaxed, alloc, ran)
    ensures Next(c, UseOf(a, relaxed, alloc)) == c <==>
            !Admissible(a, relaxed)
            || (c.ws.Some? && c.ws.value.maxRows >= a.n && c.key == KeyOf(a))
            || (c.ws.None? && !Buildable(KeyOf(a), alloc))
  {
  }

  lemma {:induction false} BuildsRise(c: Cache, us: seq<Use>, i: nat)
    requires i <= |us|
    ensures After(c, us, i).builds >= c.builds
  {
    if i > 0 { BuildsRise(c, us, i - 1); }
  }

  // Main: over a run, the workspace there was is still the cached one at the end exactly when every admitted call
  // between fits it: once replaced or lost it does not come back.
  lemma {:induction false} KeptThroughout(c: Cache, us: seq<Use>, i: nat)
    requires c.ws.Some? && i <= |us|
    ensures After(c, us, i) == c <==>
            forall j :: 0 <= j < i && us[j].Admitted? ==> us[j].rows <= c.ws.value.maxRows && us[j].key == c.key
    ensures After(c, us, i) == c || After(c, us, i).builds > c.builds || After(c, us, i).ws.None?
  {
    if i > 0 {
      KeptThroughout(c, us, i - 1);
      BuildsRise(c, us, i - 1);
    }
  }

  // After any calls the checks on size, width, type and operands cannot fail: only the scale, overlaps and aliasing
  // of the gradient outputs are left to refuse a call that has its workspace.
  lemma {:induction false} LeftToRefuse(c: Cache, a: Args, relaxed: bool, alloc: Option<set<nat>>, ran: Called)
    requires Matches(c) && Admissible(a, relaxed) && ran.Computed?
    requires var d := Next(c, UseOf(a, relaxed, alloc)); d.ws.Some?
    ensures var ws := Next(c, UseOf(a, relaxed, alloc)).ws.value;
            !Succeeds(c, a, relaxed, alloc, ran) <==>
            a.wantGrads && (!a.scaleFinite || Overlaps(a.dh, a.dw) || !Apart(a.dh, a, ws) || !Apart(a.dw, a, ws))
  {
    assert RowsFor(a.n) >= a.n;
  }

  // A call on a 12-wide weight is refused, though it passes every check the cache is protected by, and the workspace
  // of the calls before it is gone.
  lemma {:induction false} TwelveWideLosesIt()
    ensures var g := Tensor([300, 12], F32, true, true, 3, 0);
            var h := Tensor([2, 12], F32, true, true, 1, 0);
            var a := Args(2, Ints([0, 1]), Ints([3, 4]), h, g, 0, 0, 0, 64, false, true, g, g);
            var c := Cache(Some(Workspace(2, Key(64, 64, F32, 0), {9})), Key(64, 64, F32, 0), 1);
            a.Covered() && Admissible(a, false) && Next(c, UseOf(a, false, Some({10}))).ws.None?
  {
  }

  // A 16-wide call that wants gradients with a scale that is not finite is refused too, and by then the 64-wide
  // workspace has been dropped and another built.
  lemma {:induction false} BadScaleReplacesIt()
    ensures var g := Tensor([300, 16], F32, true, true, 3, 0);
            var h := Tensor([2, 16], F32, true, true, 1, 0);
            var dh := Tensor([2, 16], F32, true, true, 4, 0);
            var dw := Tensor([300, 16], F32, true, true, 5, 0);
            var a := Args(2, Ints([0, 1]), Ints([3, 4]), h, g, 0, 0, 0, 64, true, false, dh, dw);
            var c := Cache(Some(Workspace(2, Key(64, 64, F32, 0), {9})), Key(64, 64, F32, 0), 1);
            a.Covered() && Admissible(a, false) && !Succeeds(c, a, false, Some({10}), Computed)
            && Next(c, UseOf(a, false, Some({10}))) == Cache(Some(Workspace(2, Key(16, 64, F32, 0), {10})), Key(16, 64, F32, 0), 2)
  {
    assert NextPow2From(1, 2) == NextPow2From(2, 2) == 2;
  }

  // ---------- the rebuild bound ----------

  lemma {:induction false} Pow2Next(k: nat, n: nat, j: nat)
    requires k <= j && n <= Pow2(j) && (j > 0 ==> n > Pow2(j - 1))
    ensures NextPow2From(Pow2(k), n) == Pow2(j)
    decreases j - k
  {
    if k < j {
      Pow2Mono(k, j - 1);
      Pow2Next(k + 1, n, j);
    } else if j > 0 {
    }
  }

  lemma {:induction false} Pow2At31()
    ensures Pow2(31) == 0x8000_0000 && Pow2(32) == U32
  {
    assert Pow2(8) == 256;
    assert Pow2(16) == 65536;
    assert Pow2(24) == 0x100_0000;
    assert Pow2(31) == 0x8000_0000;
  }

  // The exponent of the smallest power of two that holds n.
  function Log(n: nat): (j: nat)
    ensures n <= Pow2(j) && (j > 0 ==> n > Pow2(j - 1))
  {
    LogFrom(0, n)
  }

  function LogFrom(k: nat, n: nat): (j: nat)
    requires k > 0 ==> n > Pow2(k - 1)
    ensures j >= k && n <= Pow2(j) && (j > 0 ==> n > Pow2(j - 1))
    decreases if n > Pow2(k) then n - Pow2(k) else 0
  {
    if n <= Pow2(k) then k else LogFrom(k + 1, n)
  }

  lemma {:induction false} RowsForIsPow2(n: nat)
    requires n <= 0x8000_0000
    ensures Log(n) <= 31 && RowsFor(n) == Pow2(Log(n))
  {
    Pow2At31();
    if Log(n) > 31 { Pow2Mono(31, Log(n) - 1); }
    Pow2Mono(Log(n), 31);
    Pow2Next(0, n, Log(n));
  }

  // How many more builds the cached workspace leaves room for: its size is a power of two that only grows.
  ghost predicate Sized(c: Cache, k: nat) {
    if c.ws.Some? then 0 < k <= 32 && c.ws.value.maxRows == Pow2(k - 1) else k == 0
  }

  // Rows up to 2^31 on every call that is let in.
  ghost predicate Bounded(us: seq<Use>) { forall u <- us :: u.Admitted? ==> u.rows <= 0x8000_0000 }

  lemma {:induction false} BuildGrows(c: Cache, u: Use, k: nat) returns (k': nat)
    requires Matches(c) && Sized(c, k) && u.Admitted? && u.rows <= 0x8000_0000 && Builds(c, u) && Next(c, u).key == c.key
    ensures k < k' <= 32 && Sized(Next(c, u), k')
  {
    RowsForIsPow2(u.rows);
    k' := Log(u.rows) + 1;
    if k' <= k { Pow2Mono(k' - 1, k - 1); }
  }

  // Main: while the stored key does not change and rows stay up to 2^31, a cache holding 2^(k0 - 1) rows (k0 = 0: none)
  // is rebuilt at most 32 - k0 times, and 32 more for every workspace lost. Right after a key change k0 is at least 1,
  // so with the build that changed the key that makes at most 32.
  lemma {:induction false} RebuildBound(c: Cache, us: seq<Use>, i: nat, k0: nat) returns (k: nat)
    requires i <= |us| && Bounded(us) && Matches(c) && Sized(c, k0)
    requires forall j :: 0 <= j <= i ==> After(c, us, j).key == c.key
    ensures Matches(After(c, us, i)) && Sized(After(c, us, i), k)
    ensures After(c, us, i).builds + k0 <= c.builds + k + 32 * Losses(c, us, i)
    ensures After(c, us, i).builds - c.builds <= 32 - k0 + 32 * Losses(c, us, i)
  {
    k := k0;
    if i > 0 {
      k := RebuildBound(c, us, i - 1, k0);
      var d, u := After(c, us, i - 1), us[i - 1];
      assert After(c, us, i) == Next(d, u) && u in us;
      if Builds(d, u) {
        k := BuildGrows(d, u, k);
      } else if Loses(d, u) {
        k := 0;
      }
    }
  }

  // ---------- the bound is reached ----------

  const K8: Key := Key(8, 1, F32, 0)

  // Calls that double their rows 32 times, then a 12-wide one, over and over.
  function Doubling(m: nat): Use {
    if m % 33 == 32 then Admitted(1, Key(12, 1, F32, 0), Some({})) else Admitted(Pow2(m % 33), K8, Some({}))
  }

  function Doublings(n: nat): (us: seq<Use>)
    ensures |us| == n && forall m :: 0 <= m < n ==> us[m] == Doubling(m)
  {
    seq(n, m requires 0 <= m < n => Doubling(m))
  }

  lemma {:induction false} RowsForPow2(i: nat)
    requires i <= 31
    ensures Pow2(i) <= 0x8000_0000 && RowsFor(Pow2(i)) == Pow2(i)
  {
    Pow2At31();
    Pow2Mono(i, 31);
    RowsForIsPow2(Pow2(i));
    var j := Log(Pow2(i));
    if j < i { Pow2Mono(j, i); }
    if j > i { Pow2Mono(i, j - 1); }
  }

  // The cache r doublings into a round.
  ghost predicate Doubled(c: Cache, q: nat, r: nat) {
    c == Cache(if r == 0 then None else Some(Workspace(Pow2(r - 1), K8, {})), K8, 32 * q + r)
  }

  lemma {:induction false} DoublingStep(d: Cache, q: nat, r: nat)
    requires r < 32 && Doubled(d, q, r)
    ensures var u := Admitted(Pow2(r), K8, Some({})); Doubled(Next(d, u), q, r + 1) && !Loses(d, u)
  {
    RowsForPow2(r);
    if r > 0 { Pow2Mono(r - 1, r); }
  }

  // The cache and the losses after m of these calls.
  ghost predicate InRound(c: Cache, losses: nat, m: nat) { Doubled(c, m / 33, m % 33) && losses == m / 33 }

  lemma {:induction false} RoundStep(d: Cache, losses: nat, m: nat)
    requires InRound(d, losses, m)
    ensures InRound(Next(d, Doubling(m)), losses + if Loses(d, Doubling(m)) then 1 else 0, m + 1)
  {
    var q, r := m / 33, m % 33;
    if r < 32 {
      assert (m + 1) / 33 == q && (m + 1) % 33 == r + 1;
      DoublingStep(d, q, r);
    } else {
      assert (m + 1) / 33 == q + 1 && (m + 1) % 33 == 0;
    }
  }

  lemma {:induction false} DoublingRuns(n: nat, m: nat)
    requires m <= n
    ensures InRound(After(Cache(None, K8, 0), Doublings(n), m), Losses(Cache(None, K8, 0), Doublings(n), m), m)
  {
    if m > 0 {
      DoublingRuns(n, m - 1);
      assert Doublings(n)[m - 1] == Doubling(m - 1);
      RoundStep(After(Cache(None, K8, 0), Doublings(n), m - 1), Losses(Cache(None, K8, 0), Doublings(n), m - 1), m - 1);
    }
  }

  // Main: 32 rebuilds are not a bound over runs with losses: for every number f of them, some run with rows up to
  // 2^31 and one key throughout makes all 32 * (1 + f) builds.
  lemma {:induction false} RebuildBoundReached(f: nat) returns (us: seq<Use>)
    ensures Bounded(us) && Losses(Cache(None, K8, 0), us, |us|) == f
    ensures After(Cache(None, K8, 0), us, |us|).builds == 32 * (1 + f)
    ensures forall j :: 0 <= j <= |us| ==> After(Cache(None, K8, 0), us, j).key == K8
  {
    us := Doublings(33 * f + 32);
    DoublingRuns(|us|, |us|);
    forall j | 0 <= j <= |us| ensures After(Cache(None, K8, 0), us, j).key == K8 {
      DoublingRuns(|us|, j);
    }
    forall m | 0 <= m < |us| ensures us[m].Admitted? ==> us[m].rows <= 0x8000_0000 {
      if m % 33 < 32 { RowsForPow2(m % 33); }
    }
  }
}
