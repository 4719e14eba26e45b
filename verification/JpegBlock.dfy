// One block of quantized coefficients: the baseline writer, and the decoder of ITU-T T.81 sections F.2.2.1 and
// F.2.2.2 that undoes it.
module JpegBlock {
  import opened Common
  import opened JpegBits
  import opened JpegHuffman
  import opened JpegValues

  // The 64 coefficients in zigzag order.
  type Block = b: seq<int> | |b| == 64 witness seq(64, _ => 0)

  // A table with a code for every symbol below n.
  ghost predicate Covers(t: Table, n: nat) {
    t.Valid() && forall s: nat :: s < n ==> s in t.vals
  }

  lemma {:induction false} TablesCover()
    ensures Covers(DC, 16) && Covers(AC, 256) && Covers(LL, 17)
  {
    TablesValid();
    forall s: nat | s < 16 ensures s in DC.vals { assert DC.vals[s] == s; }
    forall s: nat | s < 256 ensures s in AC.vals { assert AC.vals[s] == s; }
    forall s: nat | s < 17 ensures s in LL.vals { assert LL.vals[s] == s; }
  }

  // Bitwise or of two n-bit numbers.
  function Or(a: nat, b: nat, n: nat): (r: nat)
    ensures r < Pow2(n)
  {
    if n == 0 then 0 else 2 * Or(a / 2, b / 2, n - 1) + if a % 2 == 1 || b % 2 == 1 then 1 else 0
  }

  lemma {:induction false} OrZero(a: nat, n: nat)
    requires a < Pow2(n)
    ensures Or(a, 0, n) == a
  {
    if n > 0 { OrZero(a / 2, n - 1); }
  }

  // (run << 4) | c: above 15 the category's high bits land on the run.
  function RunSize(run: nat, c: nat): (rs: nat)
    requires run <= 15 && c < 256
    ensures rs < 256
    ensures c < 16 ==> rs == 16 * run + c
  {
    SmallPowers();
    OrZero(run, 4);
    16 * Or(run, c / 16, 4) + c % 16
  }

  // The largest index of a nonzero AC coefficient, or 0.
  function Last(b: Block, n: nat): (last: nat)
    requires 1 <= n <= 64
    ensures last < n && (last > 0 ==> b[last] != 0) && forall k :: last < k < n ==> b[k] == 0
  {
    if n == 1 then 0 else if b[n - 1] != 0 then n - 1 else Last(b, n - 1)
  }

  // ---------- what is written ----------

  ghost function DcBits(t: Table, d: int): seq<bool>
    requires Covers(t, 16) && Category(d) <= 15
  {
    t.CodeOf(Category(d)) + ExtraBits(d)
  }

  ghost function Zrl(t: Table, q: nat): seq<bool>
    requires Covers(t, 256)
  {
    if q == 0 then [] else t.CodeOf(0xF0) + Zrl(t, q - 1)
  }

  ghost function CoefBits(t: Table, run: nat, v: int): seq<bool>
    requires Covers(t, 256) && Category(v) < 256
  {
    Zrl(t, run / 16) + (t.CodeOf(RunSize(run % 16, Category(v))) + ExtraBits(v))
  }

  ghost predicate AcFits(b: Block, c: nat) { forall k {:trigger Category(b[k])} :: 1 <= k < 64 ==> Category(b[k]) <= c }

  // Coefficients i..last, after `run` zeros not yet written.
  ghost function AcBits(t: Table, b: Block, i: nat, run: nat, last: nat): seq<bool>
    requires Covers(t, 256) && 1 <= i && last < 64 && AcFits(b, 255)
    decreases 64 - i
  {
    if i > last then []
    else if b[i] == 0 then AcBits(t, b, i + 1, run + 1, last)
    else CoefBits(t, run, b[i]) + AcBits(t, b, i + 1, 0, last)
  }

  ghost function Eob(t: Table, last: nat): seq<bool>
    requires Covers(t, 256)
  {
    if last != 63 then t.CodeOf(0x00) else []
  }

  ghost function AllAcBits(t: Table, b: Block): seq<bool>
    requires Covers(t, 256) && AcFits(b, 255)
  {
    AcBits(t, b, 1, 0, Last(b, |b|)) + Eob(t, Last(b, |b|))
  }

  ghost predicate Codable(b: Block, prev: int): (r: bool)
    ensures r ==> AcFits(b, 255)
  {
    Category(b[0] - prev) <= 15 && AcFits(b, 15)
  }

  ghost function BlockBits(dc: Table, ac: Table, b: Block, prev: int): seq<bool>
    requires Covers(dc, 16) && Covers(ac, 256) && Category(b[0] - prev) <= 15 && AcFits(b, 255)
  {
    DcBits(dc, b[0] - prev) + AllAcBits(ac, b)
  }

  // ---------- the writer ----------

  // The code of symbol s, from the writer's own table of codes.
  method PutSymbol(bw: Bits, ghost t: Table, codes: map<nat, Code>, s: nat)
    requires bw.Valid() && t.Valid() && s in t.vals && codes == t.CodeMap()
    modifies bw
    ensures bw.Valid() && bw.chunks == old(bw.chunks) && bw.bits == old(bw.bits) + t.CodeOf(s)
  {
    AssignKeys(t.vals, CodeList(t.bits, 17), |t.vals|);
    assert t.vals[..|t.vals|] == t.vals;
    var c := codes[s];
    bw.Put(c.value, c.len);
  }

  method PutExtra(bw: Bits, d: int)
    requires bw.Valid() && d != 0
    modifies bw
    ensures bw.Valid() && bw.chunks == old(bw.chunks) && bw.bits == old(bw.bits) + ExtraBits(d)
  {
    var c := Category(d);
    ghost var m := Magnitude(d);
    bw.Put(if d > 0 then d else d + Pow2(c) - 1, c);
  }

  method PutDc(bw: Bits, ghost t: Table, codes: map<nat, Code>, d: int)
    requires bw.Valid() && Covers(t, 16) && codes == t.CodeMap() && Category(d) <= 15
    modifies bw
    ensures bw.Valid() && bw.chunks == old(bw.chunks) && bw.bits == old(bw.bits) + DcBits(t, d)
  {
    var c := Category(d);
    ghost var was := bw.bits;
    PutSymbol(bw, t, codes, c);
    if c != 0 {
      PutExtra(bw, d);
    } else {
      CategoryZero(d);
    }
    assert bw.bits == was + (t.CodeOf(c) + ExtraBits(d));
  }

  lemma {:induction false} CategoryZero(d: int)
    ensures Category(d) == 0 <==> d == 0
  {
    BitLengthAtMost(Abs(d), 0);
  }

  // The ZRL codes of a run of zeros; `left` zeros are not covered by them.
  method PutZrl(bw: Bits, ghost t: Table, codes: map<nat, Code>, run: nat) returns (left: nat)
    requires bw.Valid() && Covers(t, 256) && codes == t.CodeMap()
    modifies bw
    ensures bw.Valid() && bw.chunks == old(bw.chunks) && left == run % 16
    ensures bw.bits == old(bw.bits) + Zrl(t, run / 16)
  {
    left := run;
    ghost var all := bw.bits + Zrl(t, run / 16);
    while left > 15
      invariant bw.Valid() && bw.chunks == old(bw.chunks)
      invariant left % 16 == run % 16
      invariant bw.bits + Zrl(t, left / 16) == all
    {
      ConcatAssoc(bw.bits, t.CodeOf(0xF0), Zrl(t, left / 16 - 1));
      PutSymbol(bw, t, codes, 0xF0);
      left := left - 16;
    }
    assert bw.bits + [] == bw.bits;
  }

  method PutRunSize(bw: Bits, ghost t: Table, codes: map<nat, Code>, run: nat, v: int)
    requires bw.Valid() && Covers(t, 256) && codes == t.CodeMap() && Category(v) < 256 && v != 0 && run <= 15
    modifies bw
    ensures bw.Valid() && bw.chunks == old(bw.chunks)
    ensures bw.bits == old(bw.bits) + (t.CodeOf(RunSize(run, Category(v))) + ExtraBits(v))
  {
    ghost var was := bw.bits;
    var rs := RunSize(run, Category(v));
    PutSymbol(bw, t, codes, rs);
    PutExtra(bw, v);
    ConcatAssoc(was, t.CodeOf(rs), ExtraBits(v));
  }

  // One nonzero coefficient after `run` zeros.
  method PutCoef(bw: Bits, ghost t: Table, codes: map<nat, Code>, run: nat, v: int)
    requires bw.Valid() && Covers(t, 256) && codes == t.CodeMap() && Category(v) < 256 && v != 0
    modifies bw
    ensures bw.Valid() && bw.chunks == old(bw.chunks) && bw.bits == old(bw.bits) + CoefBits(t, run, v)
  {
    ghost var was := bw.bits;
    var left := PutZrl(bw, t, codes, run);
    PutRunSize(bw, t, codes, left, v);
    ConcatAssoc(was, Zrl(t, run / 16), t.CodeOf(RunSize(left, Category(v))) + ExtraBits(v));
  }

  method PutCoefs(bw: Bits, ghost t: Table, codes: map<nat, Code>, b: Block, last: nat)
    requires bw.Valid() && Covers(t, 256) && codes == t.CodeMap() && AcFits(b, 255) && last < 64
    modifies bw
    ensures bw.Valid() && bw.chunks == old(bw.chunks) && bw.bits == old(bw.bits) + AcBits(t, b, 1, 0, last)
  {
    var run := 0;
    ghost var all := bw.bits + AcBits(t, b, 1, 0, last);
    for i := 1 to last + 1
      invariant bw.Valid() && bw.chunks == old(bw.chunks)
      invariant bw.bits + AcBits(t, b, i, run, last) == all
    {
      var v := b[i];
      if v == 0 {
        run := run + 1;
      } else {
        ghost var before := bw.bits;
        PutCoef(bw, t, codes, run, v);
        ConcatAssoc(before, CoefBits(t, run, v), AcBits(t, b, i + 1, 0, last));
        run := 0;
      }
    }
    assert bw.bits + [] == bw.bits;
  }

  method PutAc(bw: Bits, ghost t: Table, codes: map<nat, Code>, b: Block)
    requires bw.Valid() && Covers(t, 256) && codes == t.CodeMap() && AcFits(b, 255)
    modifies bw
    ensures bw.Valid() && bw.chunks == old(bw.chunks) && bw.bits == old(bw.bits) + AllAcBits(t, b)
  {
    var last := Last(b, |b|);
    ghost var was, all := bw.bits, AcBits(t, b, 1, 0, last);
    PutCoefs(bw, t, codes, b, last);
    ConcatAssoc(was, all, Eob(t, last));
    if last != 63 {
      PutSymbol(bw, t, codes, 0x00);
    } else {
      assert bw.bits + [] == bw.bits;
    }
  }

  method EncodeBlock(bw: Bits, ghost dc: Table, ghost ac: Table, dcCodes: map<nat, Code>, acCodes: map<nat, Code>,
                     b: Block, prevDc: int) returns (newDc: int)
    requires bw.Valid() && Covers(dc, 16) && Covers(ac, 256)
    requires dcCodes == dc.CodeMap() && acCodes == ac.CodeMap()
    requires Category(b[0] - prevDc) <= 15 && AcFits(b, 255)
    modifies bw
    ensures bw.Valid() && bw.chunks == old(bw.chunks) && newDc == b[0]
    ensures bw.bits == old(bw.bits) + BlockBits(dc, ac, b, prevDc)
  {
    ghost var was := bw.bits;
    PutDc(bw, dc, dcCodes, b[0] - prevDc);
    PutAc(bw, ac, acCodes, b);
    ConcatAssoc(was, DcBits(dc, b[0] - prevDc), AllAcBits(ac, b));
    newDc := b[0];
  }

  // ---------- the decoder ----------

  function Zeros(n: nat): (z: seq<int>)
    ensures |z| == n
  {
    seq(n, _ => 0)
  }

  // Figure F.13: zz holds ZZ(0..K - 1) so far.
  function DecodeAc(t: Table, s: seq<bool>, zz: seq<int>): (r: Option<(Block, seq<bool>)>)
    requires |t.bits| == 16 && Ptr(t.bits, 17) == |t.vals| && |zz| <= 64
    ensures r.Some? ==> |r.value.1| <= |s|
    decreases |s|
  {
    if |zz| == 64 then Some((zz, s))
    else
      match t.DecodeSymbol(s)
      case None => None
      case Some((rs, rest)) =>
        var run, size := rs / 16, rs % 16;
        if size == 0 && run != 15 then Some((zz + Zeros(64 - |zz|), rest))
        else if |zz| + run >= 64 then None
        else if size == 0 then DecodeAc(t, rest, zz + Zeros(16))
        else
          match ReceiveExtend(rest, size)
          case None => None
          case Some((v, rest')) => DecodeAc(t, rest', zz + Zeros(run) + [v])
  }

  // Section F.2.2.1: the difference, as a category and its extra bits.
  function DecodeDiff(t: Table, s: seq<bool>): (r: Option<(int, seq<bool>)>)
    requires |t.bits| == 16 && Ptr(t.bits, 17) == |t.vals|
    ensures r.Some? ==> |r.value.1| < |s|
  {
    match t.DecodeSymbol(s)
    case None => None
    case Some((category, rest)) => ReceiveExtend(rest, category)
  }

  // Section F.2.2.1, then F.2.2.2.
  function DecodeBlock(dc: Table, ac: Table, s: seq<bool>, prevDc: int): (r: Option<(Block, seq<bool>)>)
    requires |dc.bits| == 16 && Ptr(dc.bits, 17) == |dc.vals|
    requires |ac.bits| == 16 && Ptr(ac.bits, 17) == |ac.vals|
    ensures r.Some? ==> |r.value.1| < |s|
  {
    match DecodeDiff(dc, s)
    case None => None
    case Some((diff, rest)) => DecodeAc(ac, rest, [prevDc + diff])
  }

  // ---------- the two undo each other ----------

  lemma {:induction false} ZrlRoundTrip(t: Table, q: nat, s: seq<bool>, zz: seq<int>)
    requires Covers(t, 256) && |zz| + 16 * q < 64
    ensures DecodeAc(t, Zrl(t, q) + s, zz) == DecodeAc(t, s, zz + Zeros(16 * q))
    decreases q
  {
    if q == 0 {
      assert Zrl(t, 0) + s == s && zz + Zeros(0) == zz;
    } else {
      var rest := Zrl(t, q - 1) + s;
      assert Zrl(t, q) + s == t.CodeOf(0xF0) + rest;
      t.SymbolRoundTrip(0xF0, rest);
      ZrlRoundTrip(t, q - 1, s, zz + Zeros(16));
      assert zz + Zeros(16) + Zeros(16 * (q - 1)) == zz + Zeros(16 * q);
    }
  }

  lemma {:induction false} CoefRoundTrip(t: Table, run: nat, v: int, s: seq<bool>, zz: seq<int>)
    requires Covers(t, 256) && v != 0 && Category(v) <= 15 && |zz| + run < 64
    ensures DecodeAc(t, CoefBits(t, run, v) + s, zz) == DecodeAc(t, s, zz + Zeros(run) + [v])
  {
    var q, r := run / 16, run % 16;
    var code := t.CodeOf(RunSize(r, Category(v)));
    Reassociate(Zrl(t, q), code, ExtraBits(v), s);
    ZrlRoundTrip(t, q, code + (ExtraBits(v) + s), zz);
    ShortRunRoundTrip(t, r, v, s, zz + Zeros(16 * q));
    assert zz + Zeros(16 * q) + Zeros(r) + [v] == zz + Zeros(run) + [v];
  }

  lemma {:induction false} Reassociate<T>(a: seq<T>, b: seq<T>, c: seq<T>, d: seq<T>)
    ensures (a + (b + c)) + d == a + (b + (c + d))
  {
  }

  lemma {:induction false} ShortRunRoundTrip(t: Table, run: nat, v: int, s: seq<bool>, zz: seq<int>)
    requires Covers(t, 256) && v != 0 && Category(v) <= 15 && run <= 15 && |zz| + run < 64
    ensures DecodeAc(t, t.CodeOf(RunSize(run, Category(v))) + (ExtraBits(v) + s), zz) ==
            DecodeAc(t, s, zz + Zeros(run) + [v])
  {
    var size, rest := Category(v), ExtraBits(v) + s;
    CategoryZero(v);
    var rs := RunSize(run, size);
    assert rs / 16 == run && rs % 16 == size;
    t.SymbolRoundTrip(rs, rest);
    ValueRoundTrip(v, s);
    DecodeAcStep(t, t.CodeOf(rs) + rest, zz, rs, rest, v, s);
  }

  // One turn of figure F.13 that reads a coefficient.
  lemma {:induction false} DecodeAcStep(t: Table, s: seq<bool>, zz: seq<int>, rs: nat, rest: seq<bool>, v: int, rest': seq<bool>)
    requires |t.bits| == 16 && Ptr(t.bits, 17) == |t.vals| && |zz| + rs / 16 < 64
    requires t.DecodeSymbol(s) == Some((rs, rest)) && rs % 16 != 0
    requires ReceiveExtend(rest, rs % 16) == Some((v, rest'))
    ensures DecodeAc(t, s, zz) == DecodeAc(t, rest', zz + Zeros(rs / 16) + [v])
  {
  }

  // From coefficient i on, after `run` zeros not yet written.
  ghost predicate AcReads(t: Table, b: Block, i: nat, run: nat, last: nat, tail: seq<bool>, s: seq<bool>)
    requires Covers(t, 256) && AcFits(b, 255) && 1 <= i && last < 64 && run <= i <= 64
  {
    DecodeAc(t, AcBits(t, b, i, run, last) + tail, b[..i - run]) == Some((b, s))
  }

  lemma {:induction false} AcRoundTrip(t: Table, b: Block, i: nat, run: nat, last: nat, tail: seq<bool>, s: seq<bool>)
    requires Covers(t, 256) && AcFits(b, 15) && AcFits(b, 255) && last == Last(b, |b|) && 1 <= i <= last + 1 && run < i
    requires i == last + 1 ==> run == 0
    requires b[i - run..i] == Zeros(run) && tail == Eob(t, last) + s
    ensures AcReads(t, b, i, run, last, tail, s)
    decreases 64 - i
  {
    if i > last {
      ReadEnd(t, b, last, tail, s);
    } else if b[i] == 0 {
      MoreZeros(b, i, run);
      AcRoundTrip(t, b, i + 1, run + 1, last, tail, s);
      ReadZero(t, b, i, run, last, tail, s);
    } else {
      JoinRun(b, i, run);
      AcRoundTrip(t, b, i + 1, 0, last, tail, s);
      ReadCoef(t, b, i, run, last, tail, s);
    }
  }

  lemma {:induction false} ReadEnd(t: Table, b: Block, last: nat, tail: seq<bool>, s: seq<bool>)
    requires Covers(t, 256) && AcFits(b, 255) && last == Last(b, |b|) && tail == Eob(t, last) + s
    ensures AcReads(t, b, last + 1, 0, last, tail, s)
  {
    assert AcBits(t, b, last + 1, 0, last) + tail == tail;
    EobRoundTrip(t, b, s);
  }

  lemma {:induction false} ReadZero(t: Table, b: Block, i: nat, run: nat, last: nat, tail: seq<bool>, s: seq<bool>)
    requires Covers(t, 256) && AcFits(b, 255) && 1 <= i <= last < 64 && run < i && b[i] == 0
    requires AcReads(t, b, i + 1, run + 1, last, tail, s)
    ensures AcReads(t, b, i, run, last, tail, s)
  {
  }

  lemma {:induction false} ReadCoef(t: Table, b: Block, i: nat, run: nat, last: nat, tail: seq<bool>, s: seq<bool>)
    requires Covers(t, 256) && AcFits(b, 255) && 1 <= i <= last < 64 && run < i && b[i] != 0 && Category(b[i]) <= 15
    requires b[..i - run] + Zeros(run) + [b[i]] == b[..i + 1]
    requires AcReads(t, b, i + 1, 0, last, tail, s)
    ensures AcReads(t, b, i, run, last, tail, s)
  {
    CoefStep(t, run, b[i], AcBits(t, b, i + 1, 0, last), tail, b[..i - run], b[..i + 1]);
  }

  lemma {:induction false} CoefStep(t: Table, run: nat, v: int, rest: seq<bool>, tail: seq<bool>, zz: seq<int>, zz': seq<int>)
    requires Covers(t, 256) && v != 0 && Category(v) <= 15 && |zz| + run < 64 && zz' == zz + Zeros(run) + [v]
    ensures DecodeAc(t, (CoefBits(t, run, v) + rest) + tail, zz) == DecodeAc(t, rest + tail, zz')
  {
    ConcatAssoc(CoefBits(t, run, v), rest, tail);
    CoefRoundTrip(t, run, v, rest + tail, zz);
  }

  lemma {:induction false} MoreZeros(b: Block, i: nat, run: nat)
    requires run < i < 64 && b[i - run..i] == Zeros(run) && b[i] == 0
    ensures b[i - run..i + 1] == Zeros(run + 1)
  {
    assert b[i - run..i + 1] == b[i - run..i] + [b[i]] == Zeros(run) + [0] == Zeros(run + 1);
  }

  lemma {:induction false} JoinRun(b: Block, i: nat, run: nat)
    requires run < i < 64 && b[i - run..i] == Zeros(run)
    ensures b[..i - run] + Zeros(run) + [b[i]] == b[..i + 1] && b[i + 1..i + 1] == Zeros(0)
  {
    assert b[..i - run] + b[i - run..i] == b[..i];
  }

  lemma {:induction false} EobRoundTrip(t: Table, b: Block, s: seq<bool>)
    requires Covers(t, 256)
    ensures DecodeAc(t, Eob(t, Last(b, |b|)) + s, b[..Last(b, |b|) + 1]) == Some((b, s))
  {
    var last := Last(b, |b|);
    if last == 63 {
      assert Eob(t, last) + s == s && b[..64] == b;
    } else {
      t.SymbolRoundTrip(0x00, s);
      assert b[..last + 1] + Zeros(63 - last) == b;
    }
  }

  // A block whose difference and coefficients fit category 15 is read back, and nothing after it.
  lemma {:induction false} BlockRoundTrip(dc: Table, ac: Table, b: Block, prev: int, s: seq<bool>)
    requires Covers(dc, 16) && Covers(ac, 256) && Codable(b, prev)
    ensures DecodeBlock(dc, ac, BlockBits(dc, ac, b, prev) + s, prev) == Some((b, s))
  {
    var first := b[0];
    var d := first - prev;
    AllAcRoundTrip(ac, b, first, s);
    DcRoundTrip(dc, d, AllAcBits(ac, b) + s);
    DecodeBlockStep(dc, ac, DcBits(dc, d), AllAcBits(ac, b), prev, d, b, s);
  }

  lemma {:induction false} DecodeBlockStep(dc: Table, ac: Table, x: seq<bool>, y: seq<bool>, prev: int, d: int, b: Block, s: seq<bool>)
    requires |dc.bits| == 16 && Ptr(dc.bits, 17) == |dc.vals|
    requires |ac.bits| == 16 && Ptr(ac.bits, 17) == |ac.vals|
    requires DecodeDiff(dc, x + (y + s)) == Some((d, y + s)) && DecodeAc(ac, y + s, [prev + d]) == Some((b, s))
    ensures DecodeBlock(dc, ac, (x + y) + s, prev) == Some((b, s))
  {
    ConcatAssoc(x, y, s);
  }

  lemma {:induction false} DcRoundTrip(t: Table, d: int, s: seq<bool>)
    requires Covers(t, 16) && Category(d) <= 15
    ensures DecodeDiff(t, DcBits(t, d) + s) == Some((d, s))
  {
    ConcatAssoc(t.CodeOf(Category(d)), ExtraBits(d), s);
    t.SymbolRoundTrip(Category(d), ExtraBits(d) + s);
    ValueRoundTrip(d, s);
  }

  lemma {:induction false} AllAcRoundTrip(t: Table, b: Block, first: int, s: seq<bool>)
    requires Covers(t, 256) && AcFits(b, 15) && first == b[0]
    ensures DecodeAc(t, AllAcBits(t, b) + s, [first]) == Some((b, s))
  {
    var last := Last(b, |b|);
    ConcatAssoc(AcBits(t, b, 1, 0, last), Eob(t, last), s);
    assert b[1..1] == Zeros(0) && b[..1] == [first];
    AcRoundTrip(t, b, 1, 0, last, Eob(t, last) + s, s);
  }

  // ---------- exactly when ----------

  // A number read as n bits has a category of at most n.
  lemma {:induction false} ReadCategory(s: seq<bool>, n: nat)
    requires n <= |s|
    ensures Category(ReceiveExtend(s, n).value.0) <= n
  {
    var v := ValueOf(s[..n]);
    ValueFits(s[..n]);
    BitLengthAtMost(Abs(Extend(v, n)), n);
  }

  lemma {:induction false} ValueFits(s: seq<bool>)
    ensures ValueOf(s) < Pow2(|s|)
  {
    if s != [] { ValueFits(s[..|s| - 1]); }
  }

  ghost predicate Small(zz: seq<int>) { forall k {:trigger Category(zz[k])} :: 1 <= k < |zz| ==> Category(zz[k]) <= 15 }

  lemma {:induction false} SmallZeros(zz: seq<int>, n: nat, v: int)
    requires Small(zz) && |zz| >= 1 && Category(v) <= 15
    ensures Small(zz + Zeros(n)) && Small(zz + Zeros(n) + [v])
  {
    CategoryZero(0);
    var all := zz + Zeros(n) + [v];
    forall k | 1 <= k < |all| ensures Category(all[k]) <= 15 {
      if k < |zz| { assert all[k] == zz[k]; }
    }
    assert forall k :: 1 <= k < |zz + Zeros(n)| ==> (zz + Zeros(n))[k] == all[k];
  }

  // Figure F.13 takes its sizes from four bits, so it never gives a coefficient past category 15.
  lemma {:induction false} DecodedSmall(t: Table, s: seq<bool>, zz: seq<int>)
    requires |t.bits| == 16 && Ptr(t.bits, 17) == |t.vals| && 1 <= |zz| <= 64 && Small(zz)
    ensures DecodeAc(t, s, zz).Some? ==> Small(DecodeAc(t, s, zz).value.0)
    decreases |s|
  {
    if |zz| < 64 && t.DecodeSymbol(s).Some? {
      var (rs, rest) := t.DecodeSymbol(s).value;
      var run, size := rs / 16, rs % 16;
      CategoryZero(0);
      if size == 0 && run != 15 {
        SmallZeros(zz, 64 - |zz|, 0);
      } else if |zz| + run < 64 {
        if size == 0 {
          SmallZeros(zz, 16, 0);
          DecodedSmall(t, rest, zz + Zeros(16));
        } else if ReceiveExtend(rest, size).Some? {
          var (v, rest') := ReceiveExtend(rest, size).value;
          ReadCategory(rest, size);
          SmallZeros(zz, run, v);
          DecodedSmall(t, rest', zz + Zeros(run) + [v]);
        }
      }
    }
  }

  // Whatever the stream, no decoded block has an AC coefficient past category 15.
  lemma {:induction false} DecodedFits(dc: Table, ac: Table, s: seq<bool>, prev: int)
    requires |dc.bits| == 16 && Ptr(dc.bits, 17) == |dc.vals| && |ac.bits| == 16 && Ptr(ac.bits, 17) == |ac.vals|
    ensures DecodeBlock(dc, ac, s, prev).Some? ==> AcFits(DecodeBlock(dc, ac, s, prev).value.0, 15)
  {
    if DecodeDiff(dc, s).Some? {
      var (diff, rest) := DecodeDiff(dc, s).value;
      DecodedSmall(ac, rest, [prev + diff]);
    }
  }

  // Main: of all the blocks the writer writes, exactly those whose AC coefficients fit category 15 are read back.
  lemma {:induction false} ReadBackIffFits(dc: Table, ac: Table, b: Block, prev: int, s: seq<bool>)
    requires Covers(dc, 16) && Covers(ac, 256) && Category(b[0] - prev) <= 15 && AcFits(b, 255)
    ensures DecodeBlock(dc, ac, BlockBits(dc, ac, b, prev) + s, prev) == Some((b, s)) <==> AcFits(b, 15)
  {
    DecodedFits(dc, ac, BlockBits(dc, ac, b, prev) + s, prev);
    if AcFits(b, 15) {
      BlockRoundTrip(dc, ac, b, prev, s);
    }
  }

  // Past category 15 the size runs into the run length, and two different blocks are written alike: no decoder
  // could tell them apart.
  lemma {:induction false} CategorySixteenCollides(dc: Table, ac: Table)
    requires Covers(dc, 16) && Covers(ac, 256)
    ensures var a := [0, 0x8000] + Zeros(62);
            var b := [0, 0, 0x8000] + Zeros(61);
            a != b && AcFits(a, 16) && AcFits(b, 16) && BlockBits(dc, ac, a, 0) == BlockBits(dc, ac, b, 0)
  {
    var a: Block := [0, 0x8000] + Zeros(62);
    var b: Block := [0, 0, 0x8000] + Zeros(61);
    assert a[1] != b[1];
    Category8000();
    CategoryZero(0);
    OneCoefficient(ac, a, 1, 16);
    OneCoefficient(ac, b, 2, 16);
    assert CoefBits(ac, 0, 0x8000) == CoefBits(ac, 1, 0x8000) by {
      assert RunSize(0, 16) == RunSize(1, 16) by {
        assert Or(0, 1, 4) == 1 && Or(1, 1, 4) == 1;
      }
    }
  }

  // A block whose only nonzero AC coefficient is at k.
  lemma {:induction false} OneCoefficient(t: Table, b: Block, k: nat, c: nat)
    requires Covers(t, 256) && 1 <= k < 63 && b[k] != 0 && Category(b[k]) == c <= 255
    requires forall i :: 1 <= i < 64 && i != k ==> b[i] == 0
    ensures AcFits(b, c) && AllAcBits(t, b) == CoefBits(t, k - 1, b[k]) + t.CodeOf(0x00)
  {
    CategoryZero(0);
    assert Last(b, |b|) == k;
    LeadingZeros(t, b, 1, k);
    assert CoefBits(t, k - 1, b[k]) + [] == CoefBits(t, k - 1, b[k]);
  }

  lemma {:induction false} LeadingZeros(t: Table, b: Block, i: nat, k: nat)
    requires Covers(t, 256) && 1 <= i <= k < 64 && AcFits(b, 255) && b[k] != 0
    requires forall j :: i <= j < k ==> b[j] == 0
    ensures AcBits(t, b, i, i - 1, k) == CoefBits(t, k - 1, b[k]) + []
    decreases k - i
  {
    if i < k {
      LeadingZeros(t, b, i + 1, k);
    } else {
      assert AcBits(t, b, k + 1, 0, k) == [];
    }
  }

  lemma {:induction false} Category8000()
    ensures Category(0x8000) == 16
  {
    SmallPowers();
    assert Pow2(11) == 2048 by { assert Pow2(10) == 1024; }
    assert Pow2(13) == 8192 by { assert Pow2(12) == 4096; }
    assert Pow2(15) == 0x8000 by { assert Pow2(14) == 16384; }
    assert Pow2(16) == 0x10000;
    BitLengthAtMost(0x8000, 15);
    BitLengthAtMost(0x8000, 16);
  }
}
