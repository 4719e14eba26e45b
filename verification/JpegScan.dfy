// Baseline scans: which block goes where, restart intervals, and the whole scan read back.
module JpegScan {
  import opened Common
  import opened JpegBits
  import opened JpegHuffman
  import opened JpegValues
  import opened JpegBlock

  // Block (row, col) of component c.
  datatype Ref = Ref(c: nat, row: nat, col: nat)

  // ---------- zigzag order ----------

  // Zigzag index to natural index, as the writer tabulates it, eight to a row.
  const ZZ_ROWS: seq<seq<nat>> := [
    [0, 1, 8, 16, 9, 2, 3, 10],
    [17, 24, 32, 25, 18, 11, 4, 5],
    [12, 19, 26, 33, 40, 48, 41, 34],
    [27, 20, 13, 6, 7, 14, 21, 28],
    [35, 42, 49, 56, 57, 50, 43, 36],
    [29, 22, 15, 23, 30, 37, 44, 51],
    [58, 59, 52, 45, 38, 31, 39, 46],
    [53, 60, 61, 54, 47, 55, 62, 63]]

  // Natural index to zigzag index: figure A.6 of T.81.
  const FIGURE_A6: seq<seq<nat>> := [
    [0, 1, 5, 6, 14, 15, 27, 28],
    [2, 4, 7, 13, 16, 26, 29, 42],
    [3, 8, 12, 17, 25, 30, 41, 43],
    [9, 11, 18, 24, 31, 40, 44, 53],
    [10, 19, 23, 32, 39, 45, 52, 54],
    [20, 22, 33, 38, 46, 51, 55, 60],
    [21, 34, 37, 47, 50, 56, 59, 61],
    [35, 36, 48, 49, 57, 58, 62, 63]]

  ghost predicate EightByEight(t: seq<seq<nat>>) { |t| == 8 && forall r :: 0 <= r < 8 ==> |t[r]| == 8 }

  // Entry i of an eight by eight table, counted from row r on.
  function Entry(t: seq<seq<nat>>, r: nat, i: nat): nat
    requires EightByEight(t) && 8 * r + i < 64
    decreases i
  {
    if i < 8 then t[r][i] else Entry(t, r + 1, i - 8)
  }

  lemma {:induction false} EntryAt(t: seq<seq<nat>>, r: nat, i: nat)
    requires EightByEight(t) && 8 * r + i < 64
    ensures Entry(t, r, i) == t[r + i / 8][i % 8]
    decreases i
  {
    if i >= 8 { EntryAt(t, r + 1, i - 8); }
  }

  function ZZ(i: nat): nat
    requires i < 64
  {
    Entry(ZZ_ROWS, 0, i)
  }

  function ZZInverse(k: nat): nat
    requires k < 64
  {
    Entry(FIGURE_A6, 0, k)
  }

  // Row by row of the figure, and of the writer's table.
  lemma {:induction false} FigureRow(k: nat, row: nat)
    requires k < 64 && k / 8 == row
    ensures FIGURE_A6[row][k % 8] < 64
    ensures var i := FIGURE_A6[row][k % 8]; ZZ_ROWS[i / 8][i % 8] == k
  {
  }

  lemma {:induction false} ZZRow(k: nat, row: nat)
    requires k < 64 && k / 8 == row
    ensures ZZ_ROWS[row][k % 8] < 64
    ensures var i := ZZ_ROWS[row][k % 8]; FIGURE_A6[i / 8][i % 8] == k
  {
  }

  lemma {:induction false} FigureThenZZ(k: nat)
    requires k < 64
    ensures ZZInverse(k) < 64 && ZZ(ZZInverse(k)) == k
  {
    FigureRow(k, k / 8);
    EntryAt(FIGURE_A6, 0, k);
    EntryAt(ZZ_ROWS, 0, ZZInverse(k));
  }

  lemma {:induction false} ZZThenFigure(k: nat)
    requires k < 64
    ensures ZZ(k) < 64 && ZZInverse(ZZ(k)) == k
  {
    ZZRow(k, k / 8);
    EntryAt(ZZ_ROWS, 0, k);
    EntryAt(FIGURE_A6, 0, ZZ(k));
  }

  // [blk[ZZ[i]] for i in range(64)]
  function Zigzag(b: Block): (zz: Block) { ZigzagTo(b, |b|) }

  function ZigzagTo(b: Block, n: nat): (zz: seq<int>)
    requires n <= 64
    ensures |zz| == n
  {
    if n == 0 then []
    else
      ZZThenFigure(n - 1);
      ZigzagTo(b, n - 1) + [b[ZZ(n - 1)]]
  }

  // The decoder's side: coefficient k of the block is where figure A.6 places it.
  function Natural(zz: Block): (b: Block) { NaturalTo(zz, |zz|) }

  function NaturalTo(zz: Block, n: nat): (b: seq<int>)
    requires n <= 64
    ensures |b| == n
  {
    if n == 0 then []
    else
      FigureThenZZ(n - 1);
      NaturalTo(zz, n - 1) + [zz[ZZInverse(n - 1)]]
  }

  lemma {:induction false} ZigzagAt(b: Block, n: nat, k: nat)
    requires k < n <= 64
    ensures ZZ(k) < 64 && ZigzagTo(b, n)[k] == b[ZZ(k)]
  {
    ZZThenFigure(k);
    if k < n - 1 { ZigzagAt(b, n - 1, k); }
  }

  lemma {:induction false} NaturalAt(zz: Block, n: nat, k: nat)
    requires k < n <= 64
    ensures ZZInverse(k) < 64 && NaturalTo(zz, n)[k] == zz[ZZInverse(k)]
  {
    FigureThenZZ(k);
    if k < n - 1 { NaturalAt(zz, n - 1, k); }
  }

  lemma {:induction false} ZigzagRoundTrip(b: Block)
    ensures Natural(Zigzag(b)) == b && Zigzag(b)[0] == b[0]
  {
    forall k | 0 <= k < 64 ensures Natural(Zigzag(b))[k] == b[k] {
      FigureThenZZ(k);
      NaturalAt(Zigzag(b), |b|, k);
      ZigzagAt(b, |b|, ZZInverse(k));
    }
    ZigzagAt(b, |b|, 0);
    assert ZZ(0) == 0;
  }

  // ---------- a run of blocks ----------

  type Coefs = map<Ref, Block>

  predicate Has(coefs: Coefs, refs: seq<Ref>) { forall r :: r in refs ==> r in coefs }

  // PRED: the DC coefficient of the last block of component c, or 0.
  function PrevDc(refs: seq<Ref>, coefs: Coefs, c: nat): int
    requires Has(coefs, refs)
  {
    if refs == [] then 0
    else if refs[|refs| - 1].c == c then coefs[refs[|refs| - 1]][0]
    else PrevDc(refs[..|refs| - 1], coefs, c)
  }

  // Every block can be coded where it stands: the DC differences and the AC values fit category 15.
  ghost predicate AllCodable(refs: seq<Ref>, coefs: Coefs) {
    refs != [] ==>
      var r := refs[|refs| - 1];
      AllCodable(refs[..|refs| - 1], coefs) && r in coefs
      && Has(coefs, refs[..|refs| - 1])
      && Codable(Zigzag(coefs[r]), PrevDc(refs[..|refs| - 1], coefs, r.c))
  }

  ghost function RefsBits(dc: Table, ac: Table, refs: seq<Ref>, coefs: Coefs): seq<bool>
    requires Covers(dc, 16) && Covers(ac, 256) && AllCodable(refs, coefs)
  {
    if refs == [] then []
    else
      var before, r := refs[..|refs| - 1], refs[|refs| - 1];
      RefsBits(dc, ac, before, coefs) + BlockBits(dc, ac, Zigzag(coefs[r]), PrevDc(before, coefs, r.c))
  }

  lemma {:induction false} CodablePrefix(a: seq<Ref>, b: seq<Ref>, coefs: Coefs)
    requires AllCodable(a + b, coefs)
    ensures AllCodable(a, coefs)
  {
    if b == [] {
      assert a + b == a;
    } else {
      assert (a + b)[..|a + b| - 1] == a + b[..|b| - 1];
      CodablePrefix(a, b[..|b| - 1], coefs);
    }
  }

  lemma {:induction false} CodableKeys(refs: seq<Ref>, coefs: Coefs)
    requires AllCodable(refs, coefs)
    ensures Has(coefs, refs)
  {
    if refs != [] {
      var n := |refs| - 1;
      assert refs == refs[..n] + [refs[n]];
    }
  }

  // ---------- reading it back ----------

  // The blocks from refs[k] on, one after the other; m holds what has been read.
  function DecodeRefs(dc: Table, ac: Table, s: seq<bool>, refs: seq<Ref>, k: nat, m: Coefs): (r: Option<(Coefs, seq<bool>)>)
    requires |dc.bits| == 16 && Ptr(dc.bits, 17) == |dc.vals|
    requires |ac.bits| == 16 && Ptr(ac.bits, 17) == |ac.vals|
    requires k <= |refs| && Has(m, refs[..k])
    decreases |refs| - k
  {
    if k == |refs| then Some((m, s))
    else
      match DecodeBlock(dc, ac, s, PrevDc(refs[..k], m, refs[k].c))
      case None => None
      case Some((zz, rest)) => DecodeRefs(dc, ac, rest, refs, k + 1, m[refs[k] := Natural(zz)])
  }

  // m, and the blocks of refs.
  ghost function With(m: Coefs, refs: seq<Ref>, coefs: Coefs): (m': Coefs)
    requires Has(coefs, refs)
  {
    m + map r | r in refs :: coefs[r]
  }

  lemma {:induction false} WithStep(m: Coefs, before: seq<Ref>, r: Ref, coefs: Coefs)
    requires Has(coefs, before) && r in coefs
    ensures Has(coefs, before + [r]) && With(m, before, coefs)[r := coefs[r]] == With(m, before + [r], coefs)
  {
    var a, b := With(m, before, coefs)[r := coefs[r]], With(m, before + [r], coefs);
    forall q ensures q in a <==> q in b {
      assert q in before + [r] <==> q in before || q == r;
    }
  }

  // m holds nothing but blocks of coefs.
  ghost predicate Agrees(m: Coefs, coefs: Coefs) {
    forall r :: r in m ==> r in coefs && m[r] == coefs[r]
  }

  lemma {:induction false} SamePrev(refs: seq<Ref>, m: Coefs, coefs: Coefs, c: nat)
    requires Agrees(m, coefs) && Has(m, refs)
    ensures Has(coefs, refs)
    ensures PrevDc(refs, m, c) == PrevDc(refs, coefs, c)
  {
    if refs != [] {
      assert refs[|refs| - 1] in refs;
      SamePrev(refs[..|refs| - 1], m, coefs, c);
    }
  }

  lemma {:induction false} RefsRoundTrip(dc: Table, ac: Table, refs: seq<Ref>, k: nat, coefs: Coefs, m: Coefs, s: seq<bool>)
    requires Covers(dc, 16) && Covers(ac, 256) && Agrees(m, coefs) && k <= |refs| && AllCodable(refs[..k], coefs)
    ensures Has(coefs, refs[..k])
    ensures DecodeRefs(dc, ac, RefsBits(dc, ac, refs[..k], coefs) + s, refs, 0, m) ==
            DecodeRefs(dc, ac, s, refs, k, With(m, refs[..k], coefs))
  {
    CodableKeys(refs[..k], coefs);
    if k == 0 {
      assert RefsBits(dc, ac, refs[..0], coefs) + s == s && With(m, refs[..0], coefs) == m;
    } else {
      var r, before := refs[k - 1], refs[..k - 1];
      assert refs[..k][..k - 1] == before && refs[..k] == before + [r];
      var x, y := RefsBitsParts(dc, ac, before, r, coefs);
      ConcatAssoc(x, y, s);
      RefsRoundTrip(dc, ac, refs, k - 1, coefs, m, y + s);
      WithAgrees(m, before, coefs);
      RefRoundTrip(dc, ac, refs, k - 1, coefs, With(m, before, coefs), y, s);
      WithStep(m, before, r, coefs);
    }
  }

  lemma {:induction false} WithAgrees(m: Coefs, refs: seq<Ref>, coefs: Coefs)
    requires Agrees(m, coefs) && Has(coefs, refs)
    ensures Agrees(With(m, refs, coefs), coefs) && Has(With(m, refs, coefs), refs)
  {
  }

  lemma {:induction false} RefsBitsParts(dc: Table, ac: Table, before: seq<Ref>, r: Ref, coefs: Coefs) returns (x: seq<bool>, y: seq<bool>)
    requires Covers(dc, 16) && Covers(ac, 256) && AllCodable(before + [r], coefs)
    ensures AllCodable(before, coefs) && r in coefs && Has(coefs, before)
    ensures x == RefsBits(dc, ac, before, coefs) && RefsBits(dc, ac, before + [r], coefs) == x + y
    ensures BlockIs(dc, ac, coefs[r], PrevDc(before, coefs, r.c), y)
  {
    CodableLast(before, r, coefs);
    x := RefsBits(dc, ac, before, coefs);
    y := BlockBits(dc, ac, Zigzag(coefs[r]), PrevDc(before, coefs, r.c));
    assert BlockIs(dc, ac, coefs[r], PrevDc(before, coefs, r.c), y);
    RefsBitsLast(dc, ac, before, r, coefs);
  }

  // bits are those of block b, codable here.
  ghost predicate BlockIs(dc: Table, ac: Table, b: Block, prev: int, bits: seq<bool>)
    requires Covers(dc, 16) && Covers(ac, 256)
  {
    Codable(Zigzag(b), prev) && bits == BlockBits(dc, ac, Zigzag(b), prev)
  }

  lemma {:induction false} RefRoundTrip(dc: Table, ac: Table, refs: seq<Ref>, k: nat, coefs: Coefs, m: Coefs, y: seq<bool>, s: seq<bool>)
    requires Covers(dc, 16) && Covers(ac, 256) && Agrees(m, coefs) && k < |refs|
    requires Has(m, refs[..k]) && Has(coefs, refs[..k]) && refs[k] in coefs
    requires BlockIs(dc, ac, coefs[refs[k]], PrevDc(refs[..k], coefs, refs[k].c), y)
    ensures Has(m[refs[k] := coefs[refs[k]]], refs[..k + 1])
    ensures DecodeRefs(dc, ac, y + s, refs, k, m) == DecodeRefs(dc, ac, s, refs, k + 1, m[refs[k] := coefs[refs[k]]])
  {
    SamePrev(refs[..k], m, coefs, refs[k].c);
    var prev := PrevDc(refs[..k], m, refs[k].c);
    var zz := BlockDecodes(dc, ac, coefs[refs[k]], prev, y, s);
    DecodeRefsStep(dc, ac, y + s, refs, k, m, prev, zz, s);
  }

  lemma {:induction false} BlockDecodes(dc: Table, ac: Table, b: Block, prev: int, y: seq<bool>, s: seq<bool>) returns (zz: Block)
    requires Covers(dc, 16) && Covers(ac, 256) && BlockIs(dc, ac, b, prev, y)
    ensures DecodeBlock(dc, ac, y + s, prev) == Some((zz, s)) && Natural(zz) == b
  {
    zz := Zigzag(b);
    BlockRoundTrip(dc, ac, zz, prev, s);
    ZigzagRoundTrip(b);
  }

  lemma {:induction false} DecodeRefsStep(dc: Table, ac: Table, s: seq<bool>, refs: seq<Ref>, k: nat, m: Coefs, prev: int, zz: Block, rest: seq<bool>)
    requires |dc.bits| == 16 && Ptr(dc.bits, 17) == |dc.vals|
    requires |ac.bits| == 16 && Ptr(ac.bits, 17) == |ac.vals|
    requires k < |refs| && Has(m, refs[..k])
    requires prev == PrevDc(refs[..k], m, refs[k].c) && DecodeBlock(dc, ac, s, prev) == Some((zz, rest))
    ensures Has(m[refs[k] := Natural(zz)], refs[..k + 1])
    ensures DecodeRefs(dc, ac, s, refs, k, m) == DecodeRefs(dc, ac, rest, refs, k + 1, m[refs[k] := Natural(zz)])
  {
    assert refs[..k + 1] == refs[..k] + [refs[k]];
  }

  // ---------- restart intervals, written ----------

  // The units of one interval, read as a list of blocks, all codable.
  ghost predicate Writable(iv: seq<seq<Ref>>, coefs: Coefs) { AllCodable(Concat(iv), coefs) }

  // The bytes of one interval hold its blocks, and ones to fill the last byte.
  ghost predicate Coded(dc: Table, ac: Table, chunk: seq<Byte>, iv: seq<seq<Ref>>, coefs: Coefs)
    requires Covers(dc, 16) && Covers(ac, 256)
  {
    Writable(iv, coefs) && Unpack(chunk) == Padded(RefsBits(dc, ac, Concat(iv), coefs))
  }

  ghost predicate AllCoded(dc: Table, ac: Table, chunks: seq<seq<Byte>>, ivs: seq<seq<seq<Ref>>>, coefs: Coefs)
    requires Covers(dc, 16) && Covers(ac, 256)
  {
    |chunks| == |ivs| && forall k :: 0 <= k < |ivs| ==> Coded(dc, ac, chunks[k], ivs[k], coefs)
  }

  // prev[c] is PRED of every component of the scan.
  ghost predicate Tracks(prev: map<nat, int>, refs: seq<Ref>, coefs: Coefs, cidx: set<nat>) {
    Has(coefs, refs) && forall c :: c in cidx ==> c in prev && prev[c] == PrevDc(refs, coefs, c)
  }

  method PutBlock(bw: Bits, ghost dc: Table, ghost ac: Table, dcCodes: map<nat, Code>, acCodes: map<nat, Code>,
                  r: Ref, coefs: Coefs, prev: map<nat, int>, ghost before: seq<Ref>, ghost cidx: set<nat>)
    returns (next: map<nat, int>)
    requires bw.Valid() && Covers(dc, 16) && Covers(ac, 256) && dcCodes == dc.CodeMap() && acCodes == ac.CodeMap()
    requires AllCodable(before, coefs) && bw.bits == RefsBits(dc, ac, before, coefs)
    requires AllCodable(before + [r], coefs) && Tracks(prev, before, coefs, cidx) && r.c in cidx
    modifies bw
    ensures bw.Valid() && bw.chunks == old(bw.chunks)
    ensures bw.bits == RefsBits(dc, ac, before + [r], coefs) && Tracks(next, before + [r], coefs, cidx)
  {
    CodableLast(before, r, coefs);
    var zz := Zigzag(coefs[r]);
    var dcNow := EncodeBlock(bw, dc, ac, dcCodes, acCodes, zz, prev[r.c]);
    RefsBitsLast(dc, ac, before, r, coefs);
    ZigzagRoundTrip(coefs[r]);
    TracksStep(prev, before, r, coefs, cidx);
    next := prev[r.c := dcNow];
  }

  lemma {:induction false} CodableLast(before: seq<Ref>, r: Ref, coefs: Coefs)
    requires AllCodable(before + [r], coefs)
    ensures AllCodable(before, coefs) && r in coefs && Has(coefs, before)
    ensures Codable(Zigzag(coefs[r]), PrevDc(before, coefs, r.c))
  {
    var all := before + [r];
    assert all[..|all| - 1] == before;
  }

  lemma {:induction false} RefsBitsLast(dc: Table, ac: Table, before: seq<Ref>, r: Ref, coefs: Coefs)
    requires Covers(dc, 16) && Covers(ac, 256) && AllCodable(before + [r], coefs)
    ensures AllCodable(before, coefs) && r in coefs && Has(coefs, before)
    ensures Codable(Zigzag(coefs[r]), PrevDc(before, coefs, r.c))
    ensures RefsBits(dc, ac, before + [r], coefs) ==
            RefsBits(dc, ac, before, coefs) + BlockBits(dc, ac, Zigzag(coefs[r]), PrevDc(before, coefs, r.c))
  {
    CodableLast(before, r, coefs);
    var all := before + [r];
    assert all[..|all| - 1] == before;
  }

  method PutUnit(bw: Bits, ghost dc: Table, ghost ac: Table, dcCodes: map<nat, Code>, acCodes: map<nat, Code>,
                 unit: seq<Ref>, coefs: Coefs, prev: map<nat, int>, ghost before: seq<Ref>, ghost cidx: set<nat>)
    returns (next: map<nat, int>)
    requires bw.Valid() && Covers(dc, 16) && Covers(ac, 256) && dcCodes == dc.CodeMap() && acCodes == ac.CodeMap()
    requires AllCodable(before, coefs) && bw.bits == RefsBits(dc, ac, before, coefs)
    requires AllCodable(before + unit, coefs) && Tracks(prev, before, coefs, cidx) && forall r :: r in unit ==> r.c in cidx
    modifies bw
    ensures bw.Valid() && bw.chunks == old(bw.chunks)
    ensures bw.bits == RefsBits(dc, ac, before + unit, coefs) && Tracks(next, before + unit, coefs, cidx)
  {
    next := prev;
    ghost var done := before;
    assert before + unit[..0] == before;
    for j := 0 to |unit|
      invariant bw.Valid() && bw.chunks == old(bw.chunks) && done == before + unit[..j]
      invariant After(dc, ac, done, coefs, bw.bits, next, cidx)
    {
      UnitPrefix(before, unit, j, coefs);
      next := PutBlock(bw, dc, ac, dcCodes, acCodes, unit[j], coefs, next, done, cidx);
      done := done + [unit[j]];
    }
    assert unit[..|unit|] == unit;
  }

  // The bits and the predictions after the blocks of `done`.
  ghost predicate After(dc: Table, ac: Table, done: seq<Ref>, coefs: Coefs, bits: seq<bool>, prev: map<nat, int>, cidx: set<nat>)
    requires Covers(dc, 16) && Covers(ac, 256)
  {
    AllCodable(done, coefs) && bits == RefsBits(dc, ac, done, coefs) && Tracks(prev, done, coefs, cidx)
  }

  lemma {:induction false} UnitPrefix(before: seq<Ref>, unit: seq<Ref>, j: nat, coefs: Coefs)
    requires j < |unit| && AllCodable(before + unit, coefs)
    ensures before + unit[..j + 1] == (before + unit[..j]) + [unit[j]]
    ensures AllCodable((before + unit[..j]) + [unit[j]], coefs)
  {
    var a := (before + unit[..j]) + [unit[j]];
    assert a + unit[j + 1..] == before + unit;
    CodablePrefix(a, unit[j + 1..], coefs);
  }

  lemma {:induction false} TracksStep(prev: map<nat, int>, refs: seq<Ref>, r: Ref, coefs: Coefs, cidx: set<nat>)
    requires Tracks(prev, refs, coefs, cidx) && r in coefs && r.c in cidx
    ensures Tracks(prev[r.c := coefs[r][0]], refs + [r], coefs, cidx)
  {
    var all := refs + [r];
    assert all[..|all| - 1] == refs;
  }

  // Where the writer stands: `chunks` closed, the current interval being units[from..n].
  ghost predicate Progress(dc: Table, ac: Table, units: seq<seq<Ref>>, coefs: Coefs, restart: nat,
                           chunks: seq<seq<Byte>>, from: nat, n: nat)
    requires Covers(dc, 16) && Covers(ac, 256)
  {
    var ivs, rst := Intervals(units, restart), |chunks|;
    from <= n <= |units| && from == rst * restart && (restart > 0 ==> n - from <= restart)
    && rst <= |ivs| && ivs[rst..] == Intervals(units[from..], restart) && AllCoded(dc, ac, chunks, ivs[..rst], coefs)
  }

  lemma {:induction false} CloseInterval(dc: Table, ac: Table, units: seq<seq<Ref>>, coefs: Coefs, restart: nat,
                      chunks: seq<seq<Byte>>, from: nat, n: nat, chunk: seq<Byte>)
    requires Covers(dc, 16) && Covers(ac, 256) && Progress(dc, ac, units, coefs, restart, chunks, from, n)
    requires restart > 0 && n == from + restart < |units| && Coded(dc, ac, chunk, units[from..n], coefs)
    ensures Progress(dc, ac, units, coefs, restart, chunks + [chunk], n, n)
  {
    var ivs, rst := Intervals(units, restart), |chunks|;
    var rest := units[from..];
    assert rest[..restart] == units[from..n] && rest[restart..] == units[n..];
    TailStep(ivs, rst, units[from..n], Intervals(units[n..], restart));
    assert n == (rst + 1) * restart;
  }

  lemma {:induction false} LastInterval(dc: Table, ac: Table, units: seq<seq<Ref>>, coefs: Coefs, restart: nat,
                     chunks: seq<seq<Byte>>, from: nat, chunk: seq<Byte>)
    requires Covers(dc, 16) && Covers(ac, 256) && Progress(dc, ac, units, coefs, restart, chunks, from, |units|)
    requires Coded(dc, ac, chunk, units[from..], coefs)
    ensures AllCoded(dc, ac, chunks + [chunk], Intervals(units, restart), coefs)
  {
    var ivs, rst := Intervals(units, restart), |chunks|;
    assert |units[from..]| == |units| - from;
    assert ivs[rst..] == [units[from..]] + [];
    TailStep(ivs, rst, units[from..], []);
    assert ivs[..rst + 1] == ivs;
  }

  // The interval that starts at unit `from`.
  function FirstOf<T>(units: seq<T>, from: nat, every: nat): (iv: seq<T>)
    requires from <= |units|
    ensures Intervals(units[from..], every)[0] == iv
  {
    if every == 0 || |units| - from <= every then units[from..] else units[from..from + every]
  }

  // The next unit belongs to the current interval.
  lemma {:induction false} NextUnit(dc: Table, ac: Table, units: seq<seq<Ref>>, coefs: Coefs, restart: nat,
                 chunks: seq<seq<Byte>>, from: nat, n: nat)
    requires Covers(dc, 16) && Covers(ac, 256) && Progress(dc, ac, units, coefs, restart, chunks, from, n)
    requires n < |units| && (restart > 0 ==> n < from + restart)
    requires forall iv :: iv in Intervals(units, restart) ==> Writable(iv, coefs)
    ensures Progress(dc, ac, units, coefs, restart, chunks, from, n + 1)
    ensures Concat(units[from..n + 1]) == Concat(units[from..n]) + units[n]
    ensures Writable(units[from..n], coefs) && Writable(units[from..n + 1], coefs)
  {
    var ivs, rst := Intervals(units, restart), |chunks|;
    var iv := FirstOf(units, from, restart);
    assert ivs[rst..][0] == iv;
    assert ivs[rst] == ivs[rst..][0];
    assert iv in ivs;
    var m := n - from;
    assert iv[..m] == units[from..n] && iv[m] == units[n] && iv[..m + 1] == units[from..n + 1];
    WritablePrefix(iv, m, coefs);
  }

  lemma {:induction false} WritablePrefix(iv: seq<seq<Ref>>, m: nat, coefs: Coefs)
    requires m < |iv| && Writable(iv, coefs)
    ensures Concat(iv[..m + 1]) == Concat(iv[..m]) + iv[m]
    ensures Writable(iv[..m], coefs) && Writable(iv[..m + 1], coefs)
  {
    assert iv == iv[..m + 1] + iv[m + 1..];
    ConcatAppend(iv[..m + 1], iv[m + 1..]);
    CodablePrefix(Concat(iv[..m + 1]), Concat(iv[m + 1..]), coefs);
    assert iv[..m + 1][..m] == iv[..m];
    CodablePrefix(Concat(iv[..m]), iv[m], coefs);
  }

  // The current interval is units[from..n], and its bits are in bw.
  ghost predicate Interval(dc: Table, ac: Table, units: seq<seq<Ref>>, coefs: Coefs, cidx: set<nat>, restart: nat,
                           chunks: seq<seq<Byte>>, bits: seq<bool>, prev: map<nat, int>, from: nat, n: nat)
    requires Covers(dc, 16) && Covers(ac, 256)
  {
    Progress(dc, ac, units, coefs, restart, chunks, from, n) && Writable(units[from..n], coefs)
    && bits == RefsBits(dc, ac, Concat(units[from..n]), coefs) && Tracks(prev, Concat(units[from..n]), coefs, cidx)
  }

  lemma {:induction false} StartScan(dc: Table, ac: Table, units: seq<seq<Ref>>, coefs: Coefs, restart: nat, cidx: set<nat>, prev: map<nat, int>)
    requires Covers(dc, 16) && Covers(ac, 256) && forall c :: c in cidx ==> c in prev && prev[c] == 0
    ensures Interval(dc, ac, units, coefs, cidx, restart, [], [], prev, 0, 0)
  {
    assert units[0..] == units && Concat(units[0..0]) == [];
  }

  // Flush, RSTm, and every prediction starts again from zero.
  method Restart(bw: Bits, ghost dc: Table, ghost ac: Table, ghost units: seq<seq<Ref>>, ghost coefs: Coefs,
                 cidx: set<nat>, restart: nat, rst: nat, ghost prev: map<nat, int>, ghost from: nat, n: nat)
    returns (next: map<nat, int>)
    requires bw.Valid() && rst == |bw.chunks| && Covers(dc, 16) && Covers(ac, 256)
    requires Interval(dc, ac, units, coefs, cidx, restart, bw.chunks, bw.bits, prev, from, n)
    requires restart > 0 && n == from + restart < |units|
    modifies bw
    ensures bw.Valid() && rst + 1 == |bw.chunks|
    ensures Interval(dc, ac, units, coefs, cidx, restart, bw.chunks, bw.bits, next, n, n)
  {
    bw.Flush();
    CloseInterval(dc, ac, units, coefs, restart, bw.chunks, from, n, bw.raw);
    bw.Restart(rst);
    next := map c | c in cidx :: 0;
    assert Concat(units[n..n]) == [];
  }

  // One turn of the writer's loop over units.
  method PutNext(bw: Bits, ghost dc: Table, ghost ac: Table, dcCodes: map<nat, Code>, acCodes: map<nat, Code>,
                 units: seq<seq<Ref>>, coefs: Coefs, cidx: set<nat>, restart: nat, rst: nat, prev: map<nat, int>,
                 ghost from: nat, n: nat)
    returns (rst': nat, next: map<nat, int>, ghost from': nat)
    requires Covers(dc, 16) && Covers(ac, 256) && dcCodes == dc.CodeMap() && acCodes == ac.CodeMap()
    requires forall unit, r :: unit in units && r in unit ==> r.c in cidx
    requires forall iv :: iv in Intervals(units, restart) ==> Writable(iv, coefs)
    requires bw.Valid() && rst == |bw.chunks| && n < |units| && (n > 0 ==> from < n)
    requires Interval(dc, ac, units, coefs, cidx, restart, bw.chunks, bw.bits, prev, from, n)
    modifies bw
    ensures bw.Valid() && rst' == |bw.chunks| && from' <= n
    ensures Interval(dc, ac, units, coefs, cidx, restart, bw.chunks, bw.bits, next, from', n + 1)
  {
    rst', next, from' := rst, prev, from;
    if restart != 0 && n != 0 {
      RestartDue(from, rst, restart, n);
      if n % restart == 0 {
        next := Restart(bw, dc, ac, units, coefs, cidx, restart, rst, prev, from, n);
        rst' := rst + 1;
        from' := n;
      }
    }
    NextUnit(dc, ac, units, coefs, restart, bw.chunks, from', n);
    next := PutUnit(bw, dc, ac, dcCodes, acCodes, units[n], coefs, next, Concat(units[from'..n]), cidx);
  }

  // The writer's `scan`.
  method Scan(ghost dc: Table, ghost ac: Table, dcCodes: map<nat, Code>, acCodes: map<nat, Code>,
              units: seq<seq<Ref>>, coefs: Coefs, cidx: set<nat>, restart: nat)
    returns (bytes: seq<Byte>, ghost chunks: seq<seq<Byte>>)
    requires Covers(dc, 16) && Covers(ac, 256) && dcCodes == dc.CodeMap() && acCodes == ac.CodeMap()
    requires forall unit, r :: unit in units && r in unit ==> r.c in cidx
    requires forall iv :: iv in Intervals(units, restart) ==> Writable(iv, coefs)
    ensures chunks != [] && bytes == Entropy(chunks) && AllCoded(dc, ac, chunks, Intervals(units, restart), coefs)
  {
    var bw := new Bits();
    var prev := map c | c in cidx :: 0;
    var rst: nat := 0;
    ghost var from: nat := 0;
    StartScan(dc, ac, units, coefs, restart, cidx, prev);
    for n := 0 to |units|
      invariant bw.Valid() && rst == |bw.chunks| && (n > 0 ==> from < n)
      invariant Interval(dc, ac, units, coefs, cidx, restart, bw.chunks, bw.bits, prev, from, n)
    {
      rst, prev, from := PutNext(bw, dc, ac, dcCodes, acCodes, units, coefs, cidx, restart, rst, prev, from, n);
    }
    bytes, chunks := FinishScan(bw, dc, ac, units, coefs, cidx, restart, prev, from);
  }

  // The last interval, flushed.
  method FinishScan(bw: Bits, ghost dc: Table, ghost ac: Table, ghost units: seq<seq<Ref>>, ghost coefs: Coefs,
                    ghost cidx: set<nat>, ghost restart: nat, ghost prev: map<nat, int>, ghost from: nat)
    returns (bytes: seq<Byte>, ghost chunks: seq<seq<Byte>>)
    requires bw.Valid() && Covers(dc, 16) && Covers(ac, 256)
    requires Interval(dc, ac, units, coefs, cidx, restart, bw.chunks, bw.bits, prev, from, |units|)
    modifies bw
    ensures chunks != [] && bytes == Entropy(chunks) && AllCoded(dc, ac, chunks, Intervals(units, restart), coefs)
  {
    bw.Flush();
    assert units[from..|units|] == units[from..];
    LastInterval(dc, ac, units, coefs, restart, bw.chunks, from, bw.raw);
    bytes, chunks := bw.out, bw.chunks + [bw.raw];
  }

  // ---------- restart intervals, read ----------

  function DecodeInterval(dc: Table, ac: Table, chunk: seq<bool>, refs: seq<Ref>, m: Coefs): (r: Option<Coefs>)
    requires |dc.bits| == 16 && Ptr(dc.bits, 17) == |dc.vals|
    requires |ac.bits| == 16 && Ptr(ac.bits, 17) == |ac.vals|
  {
    match DecodeRefs(dc, ac, chunk, refs, 0, m)
    case None => None
    case Some((m', rest)) => if |rest| < 8 && rest == Ones(|rest|) then Some(m') else None
  }

  // The blocks of the first k intervals.
  ghost function DecodeIntervals(dc: Table, ac: Table, chunks: seq<seq<Byte>>, ivs: seq<seq<seq<Ref>>>, k: nat): (r: Option<Coefs>)
    requires |dc.bits| == 16 && Ptr(dc.bits, 17) == |dc.vals|
    requires |ac.bits| == 16 && Ptr(ac.bits, 17) == |ac.vals|
    requires k <= |chunks| == |ivs|
  {
    if k == 0 then Some(map[])
    else
      match DecodeIntervals(dc, ac, chunks, ivs, k - 1)
      case None => None
      case Some(m) => DecodeInterval(dc, ac, Unpack(chunks[k - 1]), Concat(ivs[k - 1]), m)
  }

  // A whole scan: its blocks, and the bytes from the next marker on.
  ghost function DecodeScan(dc: Table, ac: Table, bytes: seq<Byte>, units: seq<seq<Ref>>, restart: nat): (r: Option<(Coefs, seq<Byte>)>)
    requires |dc.bits| == 16 && Ptr(dc.bits, 17) == |dc.vals|
    requires |ac.bits| == 16 && Ptr(ac.bits, 17) == |ac.vals|
  {
    var (chunks, tail) := Split(bytes, [], []);
    var ivs := Intervals(units, restart);
    if |chunks| != |ivs| then None
    else
      match DecodeIntervals(dc, ac, chunks, ivs, |ivs|)
      case None => None
      case Some(m) => Some((m, tail))
  }

  lemma {:induction false} IntervalRoundTrip(dc: Table, ac: Table, chunk: seq<Byte>, iv: seq<seq<Ref>>, coefs: Coefs, m: Coefs)
    requires Covers(dc, 16) && Covers(ac, 256) && Agrees(m, coefs) && Coded(dc, ac, chunk, iv, coefs)
    ensures Has(coefs, Concat(iv))
    ensures DecodeInterval(dc, ac, Unpack(chunk), Concat(iv), m) == Some(With(m, Concat(iv), coefs))
  {
    var refs := Concat(iv);
    CodableKeys(refs, coefs);
    var bits := RefsBits(dc, ac, refs, coefs);
    var pad := Ones(Padding(|bits|));
    assert refs[..|refs|] == refs;
    RefsRoundTrip(dc, ac, refs, |refs|, coefs, m, pad);
  }

  lemma {:induction false} WithMore(a: seq<Ref>, b: seq<Ref>, coefs: Coefs)
    requires Has(coefs, a) && Has(coefs, b)
    ensures Has(coefs, a + b) && With(With(map[], a, coefs), b, coefs) == With(map[], a + b, coefs)
  {
    var x, y := With(With(map[], a, coefs), b, coefs), With(map[], a + b, coefs);
    forall q ensures q in x <==> q in y {
      assert q in a + b <==> q in a || q in b;
    }
  }

  lemma {:induction false} IntervalsRoundTrip(dc: Table, ac: Table, chunks: seq<seq<Byte>>, ivs: seq<seq<seq<Ref>>>,
                                              coefs: Coefs, k: nat)
    requires Covers(dc, 16) && Covers(ac, 256) && AllCoded(dc, ac, chunks, ivs, coefs) && k <= |ivs|
    ensures Has(coefs, Concat(Concat(ivs[..k])))
    ensures DecodeIntervals(dc, ac, chunks, ivs, k) == Some(With(map[], Concat(Concat(ivs[..k])), coefs))
  {
    if k == 0 {
      assert With(map[], Concat(Concat(ivs[..0])), coefs) == map[];
    } else {
      IntervalsRoundTrip(dc, ac, chunks, ivs, coefs, k - 1);
      var before := Concat(ivs[..k - 1]);
      assert ivs[..k][..k - 1] == ivs[..k - 1];
      ConcatAppend(before, ivs[k - 1]);
      IntervalRoundTrip(dc, ac, chunks[k - 1], ivs[k - 1], coefs, With(map[], Concat(before), coefs));
      WithMore(Concat(before), Concat(ivs[k - 1]), coefs);
    }
  }

  lemma {:induction false} UnitsRoundTrip(dc: Table, ac: Table, chunks: seq<seq<Byte>>, units: seq<seq<Ref>>, restart: nat, coefs: Coefs)
    requires Covers(dc, 16) && Covers(ac, 256) && AllCoded(dc, ac, chunks, Intervals(units, restart), coefs)
    ensures Has(coefs, Concat(units))
    ensures DecodeIntervals(dc, ac, chunks, Intervals(units, restart), |chunks|) == Some(map r | r in Concat(units) :: coefs[r])
  {
    var ivs := Intervals(units, restart);
    IntervalsConcat(units, restart);
    IntervalsRoundTrip(dc, ac, chunks, ivs, coefs, |ivs|);
    assert ivs[..|ivs|] == ivs;
    assert With(map[], Concat(units), coefs) == map r | r in Concat(units) :: coefs[r];
  }

  // Decoding a scan gives exactly the blocks of its units, and stops at the marker after it.
  lemma {:induction false} ScanRoundTrip(dc: Table, ac: Table, chunks: seq<seq<Byte>>, units: seq<seq<Ref>>, restart: nat,
                      coefs: Coefs, tail: seq<Byte>)
    requires Covers(dc, 16) && Covers(ac, 256) && chunks != [] && (tail == [] || StartsMarker(tail))
    requires AllCoded(dc, ac, chunks, Intervals(units, restart), coefs)
    ensures Has(coefs, Concat(units))
    ensures DecodeScan(dc, ac, Entropy(chunks) + tail, units, restart) == Some((map r | r in Concat(units) :: coefs[r], tail))
  {
    var ivs := Intervals(units, restart);
    UnitsRoundTrip(dc, ac, chunks, units, restart, coefs);
    EntropyRoundTrip(chunks, tail);
    DecodeScanStep(dc, ac, Entropy(chunks) + tail, units, restart, chunks, tail);
  }

  lemma {:induction false} DecodeScanStep(dc: Table, ac: Table, bytes: seq<Byte>, units: seq<seq<Ref>>, restart: nat,
                       chunks: seq<seq<Byte>>, tail: seq<Byte>)
    requires |dc.bits| == 16 && Ptr(dc.bits, 17) == |dc.vals|
    requires |ac.bits| == 16 && Ptr(ac.bits, 17) == |ac.vals|
    requires Split(bytes, [], []) == (chunks, tail) && |chunks| == |Intervals(units, restart)|
    ensures var m := DecodeIntervals(dc, ac, chunks, Intervals(units, restart), |chunks|);
            DecodeScan(dc, ac, bytes, units, restart) == if m.Some? then Some((m.value, tail)) else None
  {
  }
}
