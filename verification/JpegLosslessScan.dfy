// Lossless scans with whole-row restart intervals, written and read back.
module JpegLosslessScan {
  import opened Common
  import opened JpegBits
  import opened JpegHuffman
  import opened JpegValues
  import opened JpegBlock
  import opened JpegScan
  import opened JpegUnits
  import opened JpegLossless
  import opened JpegOrder

  // MCU rows from, ..., to - 1: one restart interval.
  datatype Span = Span(from: nat, to: nat)

  function Spans(my0: nat, mcuy: nat, every: nat): (r: seq<Span>)
    requires my0 <= mcuy
    ensures |r| >= 1
    decreases mcuy - my0
  {
    if every == 0 || mcuy - my0 <= every then [Span(my0, mcuy)]
    else [Span(my0, my0 + every)] + Spans(my0 + every, mcuy, every)
  }

  // first_row for an interval that begins at MCU row my0.
  function First(comps: seq<Comp>, my0: nat): Rows {
    if comps == [] then map[]
    else First(comps[..|comps| - 1], my0)[comps[|comps| - 1].c := my0 * comps[|comps| - 1].v]
  }

  lemma {:induction false} FirstStarts(comps: seq<Comp>, my0: nat)
    requires Distinct(comps)
    ensures StartsAt(First(comps, my0), comps, my0)
  {
    if comps != [] {
      var n := |comps| - 1;
      FirstStarts(comps[..n], my0);
      forall k | k in comps ensures k.c in First(comps, my0) && First(comps, my0)[k.c] == my0 * k.v {
        var i :| 0 <= i < |comps| && comps[i] == k;
        if i < n {
          assert comps[..n][i] == k && comps[i].c != comps[n].c;
        }
      }
    }
  }

  // The image holds every sample of the padded grid.
  ghost predicate Holds(im: Image, comps: seq<Comp>, mcuy: nat, mcux: nat) {
    im.Valid() && forall k, r :: k in comps && InGridOf(k, mcuy, mcux, r) ==> r in im.planes
  }

  lemma {:induction false} InAll(comps: seq<Comp>, my: nat, mcux: nat, r: Ref)
    requires Distinct(comps)
    ensures r in AllOf(comps, my, mcux) <==> InGrid(comps, my, mcux, r)
  {
    UnitRowsCount(comps, my, mcux, r);
    Counted(AllOf(comps, my, mcux), r);
  }

  lemma {:induction false} AllOfInterval(comps: seq<Comp>, my0: nat, my: nat, mcux: nat)
    requires my0 <= my
    ensures AllOf(comps, my, mcux) == AllOf(comps, my0, mcux) + IntervalRefs(comps, my0, my, mcux)
    decreases my
  {
    var a := AllOf(comps, my0, mcux);
    if my == my0 {
      assert a + [] == a;
    } else {
      AllOfInterval(comps, my0, my - 1, mcux);
      AllOfNext(comps, my - 1, mcux);
      ConcatAssoc(a, IntervalRefs(comps, my0, my - 1, mcux), Concat(UnitRow(comps, my - 1, mcux)));
    }
  }

  // The rows from my0 to my hold what the first my rows hold and the first my0 do not.
  lemma {:induction false} IntervalMembers(comps: seq<Comp>, my0: nat, my: nat, mcux: nat, r: Ref)
    requires Distinct(comps) && my0 <= my
    ensures r in IntervalRefs(comps, my0, my, mcux) || InGrid(comps, my0, mcux, r) <==> InGrid(comps, my, mcux, r)
  {
    InAll(comps, my0, mcux, r);
    InAll(comps, my, mcux, r);
    AllOfInterval(comps, my0, my, mcux);
  }

  lemma {:induction false} IntervalInGrid(comps: seq<Comp>, my0: nat, my: nat, mcux: nat, r: Ref)
    requires Distinct(comps) && my0 <= my && r in IntervalRefs(comps, my0, my, mcux)
    ensures exists k :: k in comps && InGridOf(k, my, mcux, r)
  {
    IntervalMembers(comps, my0, my, mcux, r);
    var i :| 0 <= i < |comps| && InGridOf(comps[i], my, mcux, r);
    assert comps[i] in comps;
  }

  lemma {:induction false} CausalCoverable(im: Image, first: Rows, refs: seq<Ref>)
    requires im.Valid() && Causal({}, refs, first) && forall r :: r in refs ==> r in im.planes
    ensures AllCoverable(im, first, refs)
  {
    if refs != [] {
      var n := |refs| - 1;
      var before, r := refs[..n], refs[n];
      CausalCoverable(im, first, before);
      forall q | q in Needs(r, first[r.c]) ensures q in im.planes {
        assert q in before;
      }
      assert refs == before + [r];
    }
  }

  // An interval can be written from its own samples alone.
  lemma {:induction false} SpanReady(im: Image, comps: seq<Comp>, mcuy: nat, mcux: nat, my0: nat, my: nat)
    requires Distinct(comps) && Holds(im, comps, mcuy, mcux) && my0 <= my <= mcuy
    ensures Causal({}, IntervalRefs(comps, my0, my, mcux), First(comps, my0))
    ensures AllCoverable(im, First(comps, my0), IntervalRefs(comps, my0, my, mcux))
  {
    var refs := IntervalRefs(comps, my0, my, mcux);
    FirstStarts(comps, my0);
    IntervalCausal(First(comps, my0), comps, my0, my, mcux);
    forall r | r in refs ensures r in im.planes {
      IntervalInGrid(comps, my0, my, mcux, r);
      var k :| k in comps && InGridOf(k, my, mcux, r);
      MulMono(my, mcuy, k.v);
      assert InGridOf(k, mcuy, mcux, r);
    }
    CausalCoverable(im, First(comps, my0), refs);
  }

  // ---------- the writer ----------

  // The scan's fixed data.
  datatype Plan = Plan(im: Image, comps: seq<Comp>, mcuy: nat, mcux: nat, every: nat)
  {
    ghost predicate Valid() { Distinct(comps) && Holds(im, comps, mcuy, mcux) }

    function Refs(my0: nat, my: nat): seq<Ref>
      requires my0 <= my
    {
      IntervalRefs(comps, my0, my, mcux)
    }
  }

  ghost function SpanBits(t: Table, p: Plan, my0: nat, my: nat): seq<bool>
    requires Covers(t, 17) && p.Valid() && my0 <= my <= p.mcuy
  {
    SpanReady(p.im, p.comps, p.mcuy, p.mcux, my0, my);
    SamplesBits(t, p.im, First(p.comps, my0), p.Refs(my0, my))
  }

  // The script's ll_predict; >> floors.
  method LlPredict(psv: nat, ra: int, rb: int, rc: int) returns (p: int)
    requires 1 <= psv <= 7
    ensures p == Predict(psv, ra, rb, rc)
  {
    p := if psv == 1 then ra else if psv == 2 then rb else if psv == 3 then rc else if psv == 4 then ra + rb - rc
         else if psv == 5 then ra + (rb - rc) / 2 else if psv == 6 then rb + (ra - rc) / 2 else (ra + rb) / 2;
  }

  // What the writer predicts a sample from.
  method PredictSample(im: Image, first: Rows, r: Ref) returns (pred: int)
    requires Coverable(im, first, r)
    ensures pred == Prediction(im.psv, im.start, first[r.c], r, im.planes)
  {
    var p, y, x := im.planes, r.row, r.col;
    assert Needs(r, first[r.c]) <= p.Keys;
    if y == first[r.c] {
      return if x == 0 then im.start else p[Ref(r.c, y, x - 1)];
    }
    if x == 0 {
      return p[Ref(r.c, y - 1, 0)];
    }
    assert Left(r) in Needs(r, first[r.c]) && Above(r) in Needs(r, first[r.c]) && Left(Above(r)) in Needs(r, first[r.c]);
    pred := LlPredict(im.psv, p[Ref(r.c, y, x - 1)], p[Ref(r.c, y - 1, x)], p[Ref(r.c, y - 1, x - 1)]);
  }

  method PutSample(bw: Bits, ghost t: Table, codes: map<nat, Code>, im: Image, first: Rows, r: Ref, ghost before: seq<Ref>)
    requires bw.Valid() && Covers(t, 17) && codes == t.CodeMap()
    requires AllCoverable(im, first, before) && Coverable(im, first, r) && bw.bits == SamplesBits(t, im, first, before)
    modifies bw
    ensures bw.Valid() && bw.chunks == old(bw.chunks) && AllCoverable(im, first, before + [r])
    ensures bw.bits == SamplesBits(t, im, first, before + [r])
  {
    var pred := PredictSample(im, first, r);
    var d := (im.planes[r] - pred) % 0x1_0000;
    if d >= 0x8000 {
      d := d - 0x1_0000;
    }
    assert d == DiffOf(im, first, r);
    PutDiff(bw, t, codes, d);
    assert (before + [r])[..|before|] == before;
  }

  lemma {:induction false} McuPrefix(before: seq<Ref>, unit: seq<Ref>, j: nat)
    requires j < |unit|
    ensures unit[j] in before + unit && before + unit[..j + 1] == (before + unit[..j]) + [unit[j]]
  {
  }

  method PutMcu(bw: Bits, ghost t: Table, codes: map<nat, Code>, im: Image, first: Rows, unit: seq<Ref>, ghost before: seq<Ref>)
    requires bw.Valid() && Covers(t, 17) && codes == t.CodeMap() && AllCoverable(im, first, before + unit)
    requires AllCoverable(im, first, before) && bw.bits == SamplesBits(t, im, first, before)
    modifies bw
    ensures bw.Valid() && bw.chunks == old(bw.chunks) && bw.bits == SamplesBits(t, im, first, before + unit)
  {
    ghost var done := before;
    assert before + unit[..0] == before;
    for j := 0 to |unit|
      invariant bw.Valid() && bw.chunks == old(bw.chunks) && done == before + unit[..j]
      invariant AllCoverable(im, first, done) && bw.bits == SamplesBits(t, im, first, done)
    {
      McuPrefix(before, unit, j);
      PutSample(bw, t, codes, im, first, unit[j], done);
      done := done + [unit[j]];
    }
    assert unit[..|unit|] == unit;
  }

  // The row up to MCU mx, and its next MCU.
  lemma {:induction false} RowNext(comps: seq<Comp>, my: nat, mx: nat, before: seq<Ref>)
    ensures (before + Concat(UnitRow(comps, my, mx))) + Mcu(comps, my, mx) == before + Concat(UnitRow(comps, my, mx + 1))
  {
    ConcatLast(UnitRow(comps, my, mx), Mcu(comps, my, mx));
    ConcatAssoc(before, Concat(UnitRow(comps, my, mx)), Mcu(comps, my, mx));
  }

  lemma {:induction false} RowPrefix(comps: seq<Comp>, my: nat, mx: nat, mcux: nat, before: seq<Ref>)
    requires mx < mcux
    ensures (before + Concat(UnitRow(comps, my, mx))) + Mcu(comps, my, mx) == before + Concat(UnitRow(comps, my, mx + 1))
    ensures forall r :: r in before + Concat(UnitRow(comps, my, mx + 1)) ==> r in before + Concat(UnitRow(comps, my, mcux))
    decreases mcux - mx
  {
    RowNext(comps, my, mx, before);
    if mx + 1 < mcux {
      RowPrefix(comps, my, mx + 1, mcux, before);
      RowNext(comps, my, mx + 1, before);
    }
  }

  // One MCU row.
  method PutRow(bw: Bits, ghost t: Table, codes: map<nat, Code>, p: Plan, first: Rows, ghost my0: nat, my: nat)
    requires bw.Valid() && Covers(t, 17) && codes == t.CodeMap() && p.Valid() && my0 <= my < p.mcuy
    requires first == First(p.comps, my0) && bw.bits == SpanBits(t, p, my0, my)
    modifies bw
    ensures bw.Valid() && bw.chunks == old(bw.chunks) && bw.bits == SpanBits(t, p, my0, my + 1)
  {
    ghost var before := p.Refs(my0, my);
    SpanReady(p.im, p.comps, p.mcuy, p.mcux, my0, my);
    SpanReady(p.im, p.comps, p.mcuy, p.mcux, my0, my + 1);
    ghost var all := before + Concat(UnitRow(p.comps, my, p.mcux));
    assert all == p.Refs(my0, my + 1);
    ghost var done := before;
    assert before + [] == before;
    for mx := 0 to p.mcux
      invariant bw.Valid() && bw.chunks == old(bw.chunks) && done == before + Concat(UnitRow(p.comps, my, mx))
      invariant AllCoverable(p.im, first, done) && bw.bits == SamplesBits(t, p.im, first, done)
    {
      RowPrefix(p.comps, my, mx, p.mcux, before);
      var unit := McuUnits(p.comps, my, mx);
      PutMcu(bw, t, codes, p.im, first, unit, done);
      done := done + unit;
    }
  }

  ghost predicate SpanCoded(t: Table, p: Plan, chunk: seq<Byte>, span: Span)
    requires Covers(t, 17) && p.Valid()
  {
    span.from <= span.to <= p.mcuy && Unpack(chunk) == Padded(SpanBits(t, p, span.from, span.to))
  }

  ghost predicate SpansCoded(t: Table, p: Plan, chunks: seq<seq<Byte>>, spans: seq<Span>)
    requires Covers(t, 17) && p.Valid()
  {
    |chunks| == |spans| && forall j :: 0 <= j < |spans| ==> SpanCoded(t, p, chunks[j], spans[j])
  }

  // Where the writer stands: the current interval is MCU rows from, ..., my - 1.
  ghost predicate Standing(t: Table, p: Plan, chunks: seq<seq<Byte>>, from: nat, my: nat)
    requires Covers(t, 17) && p.Valid()
  {
    var spans, rst := Spans(0, p.mcuy, p.every), |chunks|;
    from <= my <= p.mcuy && from == rst * p.every && (p.every > 0 ==> my - from <= p.every)
    && rst <= |spans| && spans[rst..] == Spans(from, p.mcuy, p.every) && SpansCoded(t, p, chunks, spans[..rst])
  }

  lemma {:induction false} CloseSpan(t: Table, p: Plan, chunks: seq<seq<Byte>>, from: nat, my: nat, chunk: seq<Byte>)
    requires Covers(t, 17) && p.Valid() && Standing(t, p, chunks, from, my)
    requires p.every > 0 && my == from + p.every < p.mcuy && SpanCoded(t, p, chunk, Span(from, my))
    ensures Standing(t, p, chunks + [chunk], my, my)
  {
    var spans, rst := Spans(0, p.mcuy, p.every), |chunks|;
    TailStep(spans, rst, Span(from, my), Spans(my, p.mcuy, p.every));
    MoreCoded(t, p, chunks, spans[..rst], chunk, Span(from, my));
    OneMoreTime(rst, p.every);
  }

  lemma {:induction false} OneMoreTime(n: nat, m: nat)
    ensures (n + 1) * m == n * m + m
  {
  }

  lemma {:induction false} MoreCoded(t: Table, p: Plan, chunks: seq<seq<Byte>>, spans: seq<Span>, chunk: seq<Byte>, span: Span)
    requires Covers(t, 17) && p.Valid() && SpansCoded(t, p, chunks, spans) && SpanCoded(t, p, chunk, span)
    ensures SpansCoded(t, p, chunks + [chunk], spans + [span])
  {
  }

  lemma {:induction false} LastSpan(t: Table, p: Plan, chunks: seq<seq<Byte>>, from: nat, chunk: seq<Byte>)
    requires Covers(t, 17) && p.Valid() && Standing(t, p, chunks, from, p.mcuy)
    requires SpanCoded(t, p, chunk, Span(from, p.mcuy))
    ensures SpansCoded(t, p, chunks + [chunk], Spans(0, p.mcuy, p.every))
  {
    var spans, rst := Spans(0, p.mcuy, p.every), |chunks|;
    assert spans[rst..] == [Span(from, p.mcuy)] + [];
    TailStep(spans, rst, Span(from, p.mcuy), []);
    assert spans[..rst + 1] == spans;
  }

  // The writer's `first_row`, set for an interval that begins at MCU row my.
  method FirstRows(comps: seq<Comp>, my: nat) returns (first: Rows)
    ensures first == First(comps, my)
  {
    first := map[];
    for i := 0 to |comps|
      invariant first == First(comps[..i], my)
    {
      first := first[comps[i].c := my * comps[i].v];
      assert comps[..i + 1][..i] == comps[..i];
    }
    assert comps[..|comps|] == comps;
  }

  // Flush, RSTm, and the next row is predicted from the left only.
  method RestartRows(bw: Bits, ghost t: Table, p: Plan, rst: nat, ghost from: nat, my: nat) returns (first: Rows)
    requires bw.Valid() && rst == |bw.chunks| && Covers(t, 17) && p.Valid()
    requires Standing(t, p, bw.chunks, from, my) && bw.bits == SpanBits(t, p, from, my)
    requires p.every > 0 && my == from + p.every < p.mcuy
    modifies bw
    ensures bw.Valid() && rst + 1 == |bw.chunks| && first == First(p.comps, my)
    ensures Standing(t, p, bw.chunks, my, my) && bw.bits == SpanBits(t, p, my, my)
  {
    bw.Flush();
    CloseSpan(t, p, bw.chunks, from, my, bw.raw);
    bw.Restart(rst);
    first := FirstRows(p.comps, my);
  }

  // The writer's `code_scan`.
  method CodeScan(ghost t: Table, codes: map<nat, Code>, p: Plan) returns (bytes: seq<Byte>, ghost chunks: seq<seq<Byte>>)
    requires Covers(t, 17) && codes == t.CodeMap() && p.Valid()
    ensures chunks != [] && bytes == Entropy(chunks) && SpansCoded(t, p, chunks, Spans(0, p.mcuy, p.every))
  {
    var bw := new Bits();
    var rst: nat := 0;
    var first := FirstRows(p.comps, 0);
    ghost var from: nat := 0;
    assert SpanBits(t, p, 0, 0) == [];
    for my := 0 to p.mcuy
      invariant bw.Valid() && rst == |bw.chunks| && (my > 0 ==> from < my) && first == First(p.comps, from)
      invariant Standing(t, p, bw.chunks, from, my) && bw.bits == SpanBits(t, p, from, my)
    {
      if p.every != 0 && my != 0 {
        RestartDue(from, rst, p.every, my);
        if my % p.every == 0 {
          first := RestartRows(bw, t, p, rst, from, my);
          rst := rst + 1;
          from := my;
        }
      }
      PutRow(bw, t, codes, p, first, from, my);
    }
    bw.Flush();
    LastSpan(t, p, bw.chunks, from, bw.raw);
    bytes, chunks := bw.out, bw.chunks + [bw.raw];
  }

  // ---------- the decoder ----------

  function DecodeSpan(t: Table, s: seq<bool>, psv: nat, start: int, comps: seq<Comp>, mcux: nat, span: Span, m: Samples)
    : (r: Option<Samples>)
    requires |t.bits| == 16 && Ptr(t.bits, 17) == |t.vals| && 1 <= psv <= 7 && span.from <= span.to
  {
    match DecodeSamples(t, s, psv, start, First(comps, span.from), IntervalRefs(comps, span.from, span.to, mcux), 0, m)
    case None => None
    case Some((m', rest)) => if |rest| < 8 && rest == Ones(|rest|) then Some(m') else None
  }

  predicate Ordered(spans: seq<Span>) { forall j :: 0 <= j < |spans| ==> spans[j].from <= spans[j].to }

  // The samples of the first k intervals.
  ghost function DecodeSpans(t: Table, chunks: seq<seq<Byte>>, psv: nat, start: int, comps: seq<Comp>, mcux: nat,
                             spans: seq<Span>, k: nat): (r: Option<Samples>)
    requires |t.bits| == 16 && Ptr(t.bits, 17) == |t.vals| && 1 <= psv <= 7 && k <= |chunks| == |spans|
    requires Ordered(spans)
  {
    if k == 0 then Some(map[])
    else
      match DecodeSpans(t, chunks, psv, start, comps, mcux, spans, k - 1)
      case None => None
      case Some(m) => DecodeSpan(t, Unpack(chunks[k - 1]), psv, start, comps, mcux, spans[k - 1], m)
  }

  lemma {:induction false} SpansOrdered(my0: nat, mcuy: nat, every: nat)
    requires my0 <= mcuy
    ensures Ordered(Spans(my0, mcuy, every))
    decreases mcuy - my0
  {
    if !(every == 0 || mcuy - my0 <= every) {
      SpansOrdered(my0 + every, mcuy, every);
    }
  }

  // A whole scan: its samples, and the bytes from the next marker on.
  ghost function DecodeLossless(t: Table, bytes: seq<Byte>, psv: nat, start: int, comps: seq<Comp>, mcuy: nat, mcux: nat,
                                every: nat): (r: Option<(Samples, seq<Byte>)>)
    requires |t.bits| == 16 && Ptr(t.bits, 17) == |t.vals| && 1 <= psv <= 7
  {
    var (chunks, tail) := Split(bytes, [], []);
    var spans := Spans(0, mcuy, every);
    if |chunks| != |spans| then None
    else
      SpansOrdered(0, mcuy, every);
      match DecodeSpans(t, chunks, psv, start, comps, mcux, spans, |spans|)
      case None => None
      case Some(m) => Some((m, tail))
  }

  // ---------- round trip ----------

  // m is exactly the samples of the first my MCU rows.
  ghost predicate FirstRowsOf(m: Samples, p: Plan, my: nat) {
    PartOf(m, p.im.planes) && forall r :: r in m <==> InGrid(p.comps, my, p.mcux, r)
  }

  lemma {:induction false} SpanRoundTrip(t: Table, p: Plan, chunk: seq<Byte>, span: Span, m: Samples)
    requires Covers(t, 17) && p.Valid() && SpanCoded(t, p, chunk, span) && FirstRowsOf(m, p, span.from)
    ensures var r := DecodeSpan(t, Unpack(chunk), p.im.psv, p.im.start, p.comps, p.mcux, span, m);
            r.Some? && FirstRowsOf(r.value, p, span.to)
  {
    var my0, my := span.from, span.to;
    var refs := p.Refs(my0, my);
    SpanReady(p.im, p.comps, p.mcuy, p.mcux, my0, my);
    CausalMore({}, m.Keys, refs, First(p.comps, my0));
    var bits := SpanBits(t, p, my0, my);
    assert refs[..|refs|] == refs;
    SamplesRoundTrip(t, p.im, First(p.comps, my0), refs, |refs|, m, Ones(Padding(|bits|)));
    var m' := Add(m, refs, p.im.planes);
    forall r ensures r in m' <==> InGrid(p.comps, my, p.mcux, r) {
      IntervalMembers(p.comps, my0, my, p.mcux, r);
    }
  }

  // Interval j begins where interval j - 1 ends; the first at row my0, the last ends at mcuy.
  ghost predicate Linked(spans: seq<Span>, my0: nat, mcuy: nat) {
    spans != [] && spans[0].from == my0 && spans[|spans| - 1].to == mcuy
    && forall j :: 0 < j < |spans| ==> spans[j].from == spans[j - 1].to
  }

  lemma {:induction false} SpansLinked(my0: nat, mcuy: nat, every: nat)
    requires my0 <= mcuy
    ensures Linked(Spans(my0, mcuy, every), my0, mcuy)
    decreases mcuy - my0
  {
    if !(every == 0 || mcuy - my0 <= every) {
      SpansLinked(my0 + every, mcuy, every);
    }
  }

  function EndOf(spans: seq<Span>, k: nat): nat
    requires k <= |spans|
  {
    if k == 0 then 0 else spans[k - 1].to
  }

  lemma {:induction false} SpansRoundTrip(t: Table, p: Plan, chunks: seq<seq<Byte>>, spans: seq<Span>, k: nat)
    requires Covers(t, 17) && p.Valid() && SpansCoded(t, p, chunks, spans) && k <= |chunks|
    requires Ordered(spans) && Linked(spans, 0, p.mcuy)
    ensures var r := DecodeSpans(t, chunks, p.im.psv, p.im.start, p.comps, p.mcux, spans, k);
            r.Some? && FirstRowsOf(r.value, p, EndOf(spans, k))
  {
    if k == 0 {
      forall r ensures !InGrid(p.comps, 0, p.mcux, r) {
        NoRowYet(p.comps, p.mcux, r);
      }
    } else {
      SpansRoundTrip(t, p, chunks, spans, k - 1);
      assert EndOf(spans, k - 1) == spans[k - 1].from;
      var m := DecodeSpans(t, chunks, p.im.psv, p.im.start, p.comps, p.mcux, spans, k - 1).value;
      SpanRoundTrip(t, p, chunks[k - 1], spans[k - 1], m);
      DecodeSpansStep(t, chunks, p.im.psv, p.im.start, p.comps, p.mcux, spans, k, m);
    }
  }

  lemma {:induction false} DecodeSpansStep(t: Table, chunks: seq<seq<Byte>>, psv: nat, start: int, comps: seq<Comp>, mcux: nat,
                        spans: seq<Span>, k: nat, m: Samples)
    requires |t.bits| == 16 && Ptr(t.bits, 17) == |t.vals| && 1 <= psv <= 7 && 0 < k <= |chunks| == |spans|
    requires Ordered(spans)
    requires DecodeSpans(t, chunks, psv, start, comps, mcux, spans, k - 1) == Some(m)
    ensures DecodeSpans(t, chunks, psv, start, comps, mcux, spans, k) ==
            DecodeSpan(t, Unpack(chunks[k - 1]), psv, start, comps, mcux, spans[k - 1], m)
  {
  }

  // Decoding gives exactly the samples of the padded grid, and stops at the marker after the scan.
  lemma {:induction false} LosslessRoundTrip(t: Table, p: Plan, chunks: seq<seq<Byte>>, tail: seq<Byte>)
    requires Covers(t, 17) && p.Valid() && chunks != [] && (tail == [] || StartsMarker(tail))
    requires SpansCoded(t, p, chunks, Spans(0, p.mcuy, p.every))
    ensures var r := DecodeLossless(t, Entropy(chunks) + tail, p.im.psv, p.im.start, p.comps, p.mcuy, p.mcux, p.every);
            r.Some? && r.value.1 == tail && FirstRowsOf(r.value.0, p, p.mcuy)
  {
    EntropyRoundTrip(chunks, tail);
    AllSpansRoundTrip(t, p, chunks);
    SpansOrdered(0, p.mcuy, p.every);
    DecodeLosslessStep(t, Entropy(chunks) + tail, p.im.psv, p.im.start, p.comps, p.mcuy, p.mcux, p.every, chunks, tail);
  }

  lemma {:induction false} AllSpansRoundTrip(t: Table, p: Plan, chunks: seq<seq<Byte>>)
    requires Covers(t, 17) && p.Valid() && SpansCoded(t, p, chunks, Spans(0, p.mcuy, p.every))
    ensures Ordered(Spans(0, p.mcuy, p.every))
    ensures var r := DecodeSpans(t, chunks, p.im.psv, p.im.start, p.comps, p.mcux, Spans(0, p.mcuy, p.every), |chunks|);
            r.Some? && FirstRowsOf(r.value, p, p.mcuy)
  {
    SpansOrdered(0, p.mcuy, p.every);
    SpansLinked(0, p.mcuy, p.every);
    SpansRoundTrip(t, p, chunks, Spans(0, p.mcuy, p.every), |chunks|);
  }

  lemma {:induction false} DecodeLosslessStep(t: Table, bytes: seq<Byte>, psv: nat, start: int, comps: seq<Comp>, mcuy: nat,
                                              mcux: nat, every: nat, chunks: seq<seq<Byte>>, tail: seq<Byte>)
    requires |t.bits| == 16 && Ptr(t.bits, 17) == |t.vals| && 1 <= psv <= 7
    requires Split(bytes, [], []) == (chunks, tail) && |chunks| == |Spans(0, mcuy, every)|
    requires Ordered(Spans(0, mcuy, every))
    ensures var m := DecodeSpans(t, chunks, psv, start, comps, mcux, Spans(0, mcuy, every), |chunks|);
            DecodeLossless(t, bytes, psv, start, comps, mcuy, mcux, every) == if m.Some? then Some((m.value, tail)) else None
  {
  }

  // ---------- whole-row intervals are intervals of MCUs ----------

  // The MCUs of rows my0, ..., my - 1.
  function UnitsOf(comps: seq<Comp>, my0: nat, my: nat, mcux: nat): seq<seq<Ref>>
    requires my0 <= my
    decreases my
  {
    if my == my0 then [] else UnitsOf(comps, my0, my - 1, mcux) + UnitRow(comps, my - 1, mcux)
  }

  lemma {:induction false} UnitRowLength(comps: seq<Comp>, my: nat, mcux: nat)
    ensures |UnitRow(comps, my, mcux)| == mcux
  {
    if mcux > 0 {
      UnitRowLength(comps, my, mcux - 1);
    }
  }

  lemma {:induction false} UnitsOfLength(comps: seq<Comp>, my0: nat, my: nat, mcux: nat)
    requires my0 <= my
    ensures |UnitsOf(comps, my0, my, mcux)| == (my - my0) * mcux
    decreases my
  {
    if my > my0 {
      UnitsOfLength(comps, my0, my - 1, mcux);
      UnitRowLength(comps, my - 1, mcux);
      assert (my - my0) * mcux == (my - 1 - my0) * mcux + mcux;
    }
  }

  lemma {:induction false} UnitsOfConcat(comps: seq<Comp>, a: nat, b: nat, c: nat, mcux: nat)
    requires a <= b <= c
    ensures UnitsOf(comps, a, c, mcux) == UnitsOf(comps, a, b, mcux) + UnitsOf(comps, b, c, mcux)
    decreases c
  {
    if c > b {
      UnitsOfConcat(comps, a, b, c - 1, mcux);
      ConcatAssoc(UnitsOf(comps, a, b, mcux), UnitsOf(comps, b, c - 1, mcux), UnitRow(comps, c - 1, mcux));
    } else {
      assert UnitsOf(comps, a, b, mcux) + [] == UnitsOf(comps, a, b, mcux);
    }
  }

  lemma {:induction false} UnitsOfRefs(comps: seq<Comp>, my0: nat, my: nat, mcux: nat)
    requires my0 <= my
    ensures Concat(UnitsOf(comps, my0, my, mcux)) == IntervalRefs(comps, my0, my, mcux)
    decreases my
  {
    if my > my0 {
      UnitsOfRefs(comps, my0, my - 1, mcux);
      assert IntervalRefs(comps, my0, my, mcux) == IntervalRefs(comps, my0, my - 1, mcux) + Concat(UnitRow(comps, my - 1, mcux));
      ConcatAppend(UnitsOf(comps, my0, my - 1, mcux), UnitRow(comps, my - 1, mcux));
    }
  }

  // The intervals hold the samples of the spans, in order.
  ghost predicate Matches(comps: seq<Comp>, mcux: nat, ivs: seq<seq<seq<Ref>>>, spans: seq<Span>) {
    |ivs| == |spans| && forall j :: 0 <= j < |ivs| ==> MatchesAt(comps, mcux, ivs[j], spans[j])
  }

  ghost predicate MatchesAt(comps: seq<Comp>, mcux: nat, iv: seq<seq<Ref>>, span: Span) {
    span.from <= span.to && Concat(iv) == IntervalRefs(comps, span.from, span.to, mcux)
  }

  // A decoder that counts MCUs, `restart` = every * mcux of them to an interval, sees the same intervals, sample
  // for sample.
  lemma {:induction false} SpansAreIntervals(comps: seq<Comp>, my0: nat, mcuy: nat, mcux: nat, every: nat, restart: nat)
    requires my0 <= mcuy && mcux > 0 && restart == every * mcux
    ensures Matches(comps, mcux, Intervals(UnitsOf(comps, my0, mcuy, mcux), restart), Spans(my0, mcuy, every))
    decreases mcuy - my0
  {
    if every == 0 || mcuy - my0 <= every {
      OneInterval(comps, my0, mcuy, mcux, every, restart);
      UnitsOfRefs(comps, my0, mcuy, mcux);
    } else {
      var my1 := my0 + every;
      NextInterval(comps, my0, mcuy, mcux, every, restart);
      UnitsOfRefs(comps, my0, my1, mcux);
      SpansAreIntervals(comps, my1, mcuy, mcux, every, restart);
      MatchesMore(comps, mcux, UnitsOf(comps, my0, my1, mcux), Span(my0, my1),
                  Intervals(UnitsOf(comps, my1, mcuy, mcux), restart), Spans(my1, mcuy, every));
    }
  }

  lemma {:induction false} MatchesMore(comps: seq<Comp>, mcux: nat, iv: seq<seq<Ref>>, span: Span,
                                       ivs: seq<seq<seq<Ref>>>, spans: seq<Span>)
    requires MatchesAt(comps, mcux, iv, span) && Matches(comps, mcux, ivs, spans)
    ensures Matches(comps, mcux, [iv] + ivs, [span] + spans)
  {
  }

  lemma {:induction false} OneInterval(comps: seq<Comp>, my0: nat, mcuy: nat, mcux: nat, every: nat, restart: nat)
    requires my0 <= mcuy && restart == every * mcux && (every == 0 || mcuy - my0 <= every)
    ensures Intervals(UnitsOf(comps, my0, mcuy, mcux), restart) == [UnitsOf(comps, my0, mcuy, mcux)]
  {
    UnitsOfLength(comps, my0, mcuy, mcux);
    if every != 0 {
      MulMono(mcuy - my0, every, mcux);
    }
  }

  lemma {:induction false} NextInterval(comps: seq<Comp>, my0: nat, mcuy: nat, mcux: nat, every: nat, restart: nat)
    requires mcux > 0 && restart == every * mcux && every > 0 && my0 + every < mcuy
    ensures Intervals(UnitsOf(comps, my0, mcuy, mcux), restart) ==
            [UnitsOf(comps, my0, my0 + every, mcux)] + Intervals(UnitsOf(comps, my0 + every, mcuy, mcux), restart)
  {
    var units, my1 := UnitsOf(comps, my0, mcuy, mcux), my0 + every;
    var first, rest := UnitsOf(comps, my0, my1, mcux), UnitsOf(comps, my1, mcuy, mcux);
    UnitsOfLength(comps, my0, mcuy, mcux);
    UnitsOfLength(comps, my0, my1, mcux);
    UnitsOfConcat(comps, my0, my1, mcuy, mcux);
    StrictMul(every, mcuy - my0, mcux);
    assert units[..restart] == first && units[restart..] == rest;
  }

  lemma {:induction false} StrictMul(a: nat, b: nat, w: nat)
    requires 0 < a < b && w > 0
    ensures 0 < a * w < b * w
  {
    MulMono(a + 1, b, w);
    MulMono(1, a, w);
    assert (a + 1) * w == a * w + w;
  }
}
