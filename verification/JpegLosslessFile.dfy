// The lossless writer, whole: its scans, their geometry, and the file they make.
module JpegLosslessFile {
  import opened Common
  import opened JpegBits
  import opened JpegHuffman
  import opened JpegValues
  import opened JpegBlock
  import opened JpegScan
  import opened JpegUnits
  import opened JpegLossless
  import opened JpegLosslessScan
  import opened JpegMarkers
  import opened JpegFile

  // The components of each scan: as listed, or all in one, or one each.
  function ScanLists(n: nat, interleave: bool, listed: Option<seq<seq<nat>>>): seq<seq<nat>> {
    match listed
    case Some(scans) => scans
    case None => if interleave || n == 1 then [UpTo(n)] else seq(n, c requires 0 <= c => [c])
  }

  // What write_lossless is told.
  datatype Request = Request(fs: seq<Factors>, width: nat, height: nat, planes: Samples, psv: nat, pt: Byte, precision: nat,
                             restart: nat, restartRows: nat)
  {
    function Image(): JpegLossless.Image { JpegLossless.Image(psv, Start(precision, pt), planes) }

    // MCUs across a scan of these components.
    function Across(cidx: seq<nat>): nat
      requires HMax(fs) > 0 && forall c :: c in cidx ==> c < |fs|
    {
      if |cidx| == 1 then assert cidx[0] in cidx; CeilDiv(width * fs[cidx[0]].h, HMax(fs)) else CeilDiv(width, HMax(fs))
    }

    function Down(cidx: seq<nat>): nat
      requires VMax(fs) > 0 && forall c :: c in cidx ==> c < |fs|
    {
      if |cidx| == 1 then assert cidx[0] in cidx; CeilDiv(height * fs[cidx[0]].v, VMax(fs)) else CeilDiv(height, VMax(fs))
    }

    // Restart intervals are counted in rows; dividing by zero columns would raise.
    ghost predicate Scannable(cidx: seq<nat>) {
      HMax(fs) > 0 && VMax(fs) > 0 && (forall c :: c in cidx ==> c < |fs|)
      && (forall i, j :: 0 <= i < j < |cidx| ==> cidx[i] != cidx[j])
      && (restartRows == 0 && restart > 0 ==> Across(cidx) > 0)
    }

    function Plan(cidx: seq<nat>): JpegLosslessScan.Plan
      requires Scannable(cidx)
    {
      var across := Across(cidx);
      var every := if restartRows != 0 then restartRows else if restart != 0 then restart / across else 0;
      var comps := if |cidx| == 1 then [Comp(cidx[0], 1, 1)] else Interleaved(fs, cidx);
      JpegLosslessScan.Plan(Image(), comps, Down(cidx), across, every)
    }

    // The planes hold every sample the scan visits, and all of them fit sixteen bits.
    ghost predicate Ready(cidx: seq<nat>) {
      Scannable(cidx) && Holds(Image(), Plan(cidx).comps, Plan(cidx).mcuy, Plan(cidx).mcux)
    }
  }

  lemma {:induction false} PlanValid(r: Request, cidx: seq<nat>)
    requires r.Ready(cidx)
    ensures r.Plan(cidx).Valid() && |r.Plan(cidx).comps| == |cidx| && forall k :: k in r.Plan(cidx).comps ==> k.c in cidx
  {
    var comps := r.Plan(cidx).comps;
    forall i | 0 <= i < |comps| ensures comps[i].c == cidx[i] {
    }
  }

  // A part that holds a lossless scan of the plan.
  ghost predicate HoldsPlan(t: Table, p: Part, plan: Plan)
    requires Covers(t, 17) && plan.Valid()
  {
    p.ScanPart? && SpansCoded(t, plan, p.chunks, Spans(0, plan.mcuy, plan.every))
  }

  method WriteLosslessScan(t: Table, codes: map<nat, Code>, r: Request, cidx: seq<nat>, ids: seq<Byte>)
    returns (bytes: seq<Byte>, ghost part: Part)
    requires Covers(t, 17) && codes == t.CodeMap() && r.Ready(cidx) && |r.fs| <= |ids| && |cidx| < 256
    ensures HoldsList(t, part, r, ids, cidx) && bytes == PartBytes(part)
  {
    PlanValid(r, cidx);
    var plan := r.Plan(cidx);
    var data, chunks := CodeScan(t, codes, plan);
    var header := ScanHeader(ids, plan.comps, [plan.im.psv, 0, r.pt]);
    bytes := Seg(0xDA, header) + data;
    part := ScanPart(header, chunks);
  }

  ghost predicate HoldsPlans(t: Table, parts: seq<Part>, r: Request, ids: seq<Byte>, lists: seq<seq<nat>>)
    requires Covers(t, 17)
  {
    |parts| == |lists| && forall k :: 0 <= k < |lists| ==> HoldsList(t, parts[k], r, ids, lists[k])
  }

  // The scan of these components, with the header that names them.
  ghost predicate HoldsList(t: Table, p: Part, r: Request, ids: seq<Byte>, cidx: seq<nat>)
    requires Covers(t, 17)
  {
    r.Scannable(cidx) && r.Plan(cidx).Valid() && HoldsPlan(t, p, r.Plan(cidx)) && |cidx| < 256
    && (forall k :: k in r.Plan(cidx).comps ==> k.c < |ids|) && r.psv < 256
    && p.header == ScanHeader(ids, r.Plan(cidx).comps, [r.psv, 0, r.pt])
  }

  // write_lossless, from the header segments on.
  method WriteLossless(t: Table, r: Request, interleave: bool, listed: Option<seq<seq<nat>>>, header: seq<Byte>,
                       ghost segments: seq<Part>, ids: seq<Byte>, eoi: bool)
    returns (out: seq<Byte>, ghost scans: seq<Part>)
    requires Covers(t, 17) && |r.fs| <= |ids| && header == PartsBytes(segments)
    requires forall cidx :: cidx in ScanLists(|r.fs|, interleave, listed) ==> r.Ready(cidx) && |cidx| < 256
    ensures HoldsPlans(t, scans, r, ids, ScanLists(|r.fs|, interleave, listed)) && out == Joined(segments + scans, eoi)
  {
    var lists := ScanLists(|r.fs|, interleave, listed);
    var codes := Codes(t.bits, t.vals);
    out, scans := [0xFF, 0xD8] + header, [];
    assert segments + [] == segments;
    for k := 0 to |lists|
      invariant HoldsPlans(t, scans, r, ids, lists[..k])
      invariant out == [0xFF, 0xD8] + PartsBytes(segments + scans)
    {
      var more, part := WriteLosslessScan(t, codes, r, lists[k], ids);
      JoinScan(out, segments, scans, part, more);
      MorePlans(t, scans, r, ids, lists, k, part);
      out, scans := out + more, scans + [part];
    }
    assert lists[..|lists|] == lists;
    ghost var all := PartsBytes(segments + scans);
    ConcatAssoc([0xFF, 0xD8], all, if eoi then EOI else []);
    if eoi {
      out := out + [0xFF, 0xD9];
    } else {
      assert out + [] == out;
    }
  }

  lemma {:induction false} MorePlans(t: Table, scans: seq<Part>, r: Request, ids: seq<Byte>, lists: seq<seq<nat>>, k: nat, part: Part)
    requires Covers(t, 17) && k < |lists| && HoldsPlans(t, scans, r, ids, lists[..k]) && HoldsList(t, part, r, ids, lists[k])
    ensures HoldsPlans(t, scans + [part], r, ids, lists[..k + 1])
  {
  }

  // Decoding gives exactly the samples of the plan's grid.
  ghost predicate DecodesToPlan(t: Table, bytes: seq<Byte>, plan: Plan)
    requires Covers(t, 17) && plan.Valid()
  {
    var r := DecodeLossless(t, bytes, plan.im.psv, plan.im.start, plan.comps, plan.mcuy, plan.mcux, plan.every);
    r.Some? && FirstRowsOf(r.value.0, plan, plan.mcuy)
  }

  lemma {:induction false} PlanDecodes(t: Table, p: Part, plan: Plan, tail: seq<Byte>)
    requires Covers(t, 17) && plan.Valid() && HoldsPlan(t, p, plan) && StartsMarker(tail)
    ensures DecodesToPlan(t, Entropy(p.chunks) + tail, plan)
  {
    LosslessRoundTrip(t, plan, p.chunks, tail);
  }

  // The search finds a scan at i, and what follows its header decodes to the samples of the plan.
  ghost predicate FoundAndRestored(t: Table, b: seq<Byte>, i: nat, header: seq<Byte>, plan: Plan)
    requires Covers(t, 17) && plan.Valid()
  {
    var found := Walk(b, 2, []);
    var data := i + 4 + |header|;
    found.Some? && i in found.value && data <= |b| && DecodesToPlan(t, b[data..], plan)
  }

  lemma {:induction false} PartRestored(t: Table, parts: seq<Part>, j: nat, plan: Plan)
    requires Covers(t, 17) && plan.Valid() && j < |parts| && HoldsPlan(t, parts[j], plan)
    ensures FoundAndRestored(t, FileBytes(parts), Offset(parts, j, 2), parts[j].header, plan)
  {
    ScanOffsetsExact(parts);
    OffsetFound(parts, j, 2);
    PartData(parts, j);
    PlanDecodes(t, parts[j], plan, PartsBytes(parts[j + 1..]) + EOI);
  }

  // A file of write_lossless, closed with EOI: the search finds each scan, and decoding from there restores every
  // sample of it, and no other.
  lemma {:induction false} LosslessFileRoundTrip(t: Table, r: Request, ids: seq<Byte>, lists: seq<seq<nat>>, segments: seq<Part>,
                                                 scans: seq<Part>, k: nat)
    requires Covers(t, 17) && HoldsPlans(t, scans, r, ids, lists) && k < |lists|
    ensures scans[k].ScanPart? && r.Scannable(lists[k]) && r.Plan(lists[k]).Valid()
    ensures FoundAndRestored(t, FileBytes(segments + scans), Offset(segments + scans, |segments| + k, 2), scans[k].header,
                             r.Plan(lists[k]))
  {
    var parts, j := segments + scans, |segments| + k;
    assert parts[j] == scans[k] && HoldsList(t, scans[k], r, ids, lists[k]);
    PartRestored(t, parts, j, r.Plan(lists[k]));
  }
}
