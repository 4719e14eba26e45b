// Whole lossless files: from the bytes alone the decoder restores every sample (ITU-T T.81, section H.2).
module JpegLosslessDecoder {
  import opened Common
  import opened JpegBits
  import opened JpegHuffman
  import opened JpegValues
  import opened JpegBlock
  import opened JpegScan
  import opened JpegUnits
  import opened JpegLossless
  import opened JpegLosslessScan
  import opened JpegMarkers
  import opened JpegFile
  import opened JpegHeader
  import opened JpegDecoder
  import L = JpegLosslessFile

  // What a lossless file was told, in its header and for its scans: SOF3, distinct identifiers, one table, restart
  // intervals of whole MCU rows.
  ghost predicate LosslessRequest(x: Request, t: Table, r: L.Request) {
    x.Valid() && Covers(t, 17) && x.frame.sof == 0xC3 && DistinctIds(x.frame.comps) && x.huff == [(0, t)]
    && r.fs == FactorsOf(x.frame) && r.width == x.frame.width && r.height == x.frame.height && r.precision == x.frame.precision
    && r.restart == x.restart && r.restartRows == 0 && r.pt < 16
  }

  // A scan the decoder accepts: it has components, and its restart interval is whole rows.
  ghost predicate Acceptable(r: L.Request, cidx: seq<nat>) {
    cidx != [] && r.Scannable(cidx) && (r.restart != 0 ==> r.Across(cidx) > 0 && r.restart % r.Across(cidx) == 0)
  }

  // The decoder is where a scan of these components starts.
  ghost predicate ReadyFor(d: Decoded, x: Request, t: Table, r: L.Request, cidx: seq<nat>) {
    LosslessRequest(x, t, r) && Acceptable(r, cidx) && d.h.frame == Some(x.frame) && d.h.restart == x.restart
    && 0 in d.h.huff && d.h.huff[0] == t
  }

  // It takes them to have the plan's geometry.
  lemma {:induction false} PlanPlaced(d: Decoded, x: Request, t: Table, r: L.Request, cidx: seq<nat>)
    requires ReadyFor(d, x, t, r, cidx)
    ensures CidxOf(r.Plan(cidx).comps) == cidx
    ensures ScanGeometry(x.frame, cidx, 1) == Geometry(r.Plan(cidx).comps, r.Plan(cidx).mcuy, r.Plan(cidx).mcux)
  {
  }

  lemma {:induction false} LosslessScanRead(d: Decoded, x: Request, t: Table, r: L.Request, cidx: seq<nat>, p: Part, rest: seq<Byte>)
    returns (m: Samples)
    requires ReadyFor(d, x, t, r, cidx) && L.HoldsList(t, p, r, Ids(x.frame.comps), cidx) && StartsMarker(rest)
    ensures ReadScan(d, x.frame, SosInfo(cidx, [r.psv, 0, r.pt]), Entropy(p.chunks) + rest) ==
            Some((d.(samples := d.samples + m), rest))
    ensures FirstRowsOf(m, r.Plan(cidx), r.Plan(cidx).mcuy)
  {
    var plan := r.Plan(cidx);
    PlanPlaced(d, x, t, r, cidx);
    LosslessRoundTrip(t, plan, p.chunks, rest);
    m := DecodeLossless(t, Entropy(p.chunks) + rest, plan.im.psv, plan.im.start, plan.comps, plan.mcuy, plan.mcux, plan.every).value.0;
  }

  lemma {:induction false} LosslessScanDecoded(d: Decoded, x: Request, t: Table, r: L.Request, cidx: seq<nat>, p: Part, rest: seq<Byte>)
    returns (m: Samples)
    requires ReadyFor(d, x, t, r, cidx) && L.HoldsList(t, p, r, Ids(x.frame.comps), cidx) && StartsMarker(rest)
    ensures DecodeBody(PartBytes(p) + rest, d) == DecodeBody(rest, d.(samples := d.samples + m))
    ensures FirstRowsOf(m, r.Plan(cidx), r.Plan(cidx).mcuy)
  {
    PlanPlaced(d, x, t, r, cidx);
    m := LosslessScanRead(d, x, t, r, cidx, p, rest);
    SosReads(x.frame, r.Plan(cidx).comps, [r.psv, 0, r.pt]);
    PartOfScan(p.header, Entropy(p.chunks), rest, d, x.frame, SosInfo(cidx, [r.psv, 0, r.pt]), d.(samples := d.samples + m));
  }

  // Sample s is one the scan of these components carries.
  ghost predicate Carried(r: L.Request, cidx: seq<nat>, s: Ref) {
    r.Scannable(cidx) && InGrid(r.Plan(cidx).comps, r.Plan(cidx).mcuy, r.Plan(cidx).mcux, s)
  }

  ghost predicate SomeCarries(r: L.Request, lists: seq<seq<nat>>, s: Ref) {
    exists k :: 0 <= k < |lists| && Carried(r, lists[k], s)
  }

  lemma {:induction false} FirstOrLater(r: L.Request, lists: seq<seq<nat>>, s: Ref)
    requires lists != []
    ensures SomeCarries(r, lists, s) <==> Carried(r, lists[0], s) || SomeCarries(r, lists[1..], s)
  {
    if k :| 0 <= k < |lists| && Carried(r, lists[k], s) {
      if k > 0 { assert Carried(r, lists[1..][k - 1], s); }
    }
    if k :| 0 <= k < |lists[1..]| && Carried(r, lists[1..][k], s) {
      assert Carried(r, lists[k + 1], s);
    }
  }

  // m' is m and exactly the samples the scans carry, each as it was coded.
  ghost predicate HasSamples(m': Samples, m: Samples, r: L.Request, lists: seq<seq<nat>>) {
    (PartOf(m, r.planes) ==> PartOf(m', r.planes)) && forall s :: s in m' <==> s in m || SomeCarries(r, lists, s)
  }

  lemma {:induction false} MoreSamples(m': Samples, m: Samples, one: Samples, r: L.Request, lists: seq<seq<nat>>)
    requires lists != [] && r.Scannable(lists[0]) && FirstRowsOf(one, r.Plan(lists[0]), r.Plan(lists[0]).mcuy)
    requires HasSamples(m', m + one, r, lists[1..])
    ensures HasSamples(m', m, r, lists)
  {
    forall s ensures s in m' <==> s in m || SomeCarries(r, lists, s) {
      assert s in one <==> Carried(r, lists[0], s);
      FirstOrLater(r, lists, s);
    }
  }

  lemma {:induction false} ScansDecoded(d: Decoded, x: Request, t: Table, r: L.Request, lists: seq<seq<nat>>, scans: seq<Part>)
    returns (m: Samples)
    requires Covers(t, 17) && L.HoldsPlans(t, scans, r, Ids(x.frame.comps), lists)
    requires forall k :: 0 <= k < |lists| ==> ReadyFor(d, x, t, r, lists[k])
    ensures DecodeBody(PartsBytes(scans) + EOI, d) == Some(d.(samples := m)) && HasSamples(m, d.samples, r, lists)
    decreases |lists|
  {
    if lists == [] {
      m := d.samples;
      assert PartsBytes(scans) + EOI == EOI && d.(samples := m) == d;
    } else {
      var head := PartBytes(scans[0]);
      FirstPart(scans, head);
      ConcatAssoc(head, PartsBytes(scans[1..]), EOI);
      RestStartsMarker(scans[1..]);
      assert L.HoldsList(t, scans[0], r, Ids(x.frame.comps), lists[0]) && ReadyFor(d, x, t, r, lists[0]);
      var one := LosslessScanDecoded(d, x, t, r, lists[0], scans[0], PartsBytes(scans[1..]) + EOI);
      var d' := d.(samples := d.samples + one);
      forall k | 0 <= k < |lists[1..]| ensures ReadyFor(d', x, t, r, lists[1..][k]) {
        assert ReadyFor(d, x, t, r, lists[k + 1]);
      }
      m := ScansDecoded(d', x, t, r, lists[1..], scans[1..]);
      MoreSamples(m, d.samples, one, r, lists);
    }
  }

  // Main: from the bytes of a closed lossless file alone the decoder recovers everything the header was told, and exactly
  // the samples of the scans' grids, each as it was coded.
  lemma {:induction false} LosslessFileDecoded(x: Request, t: Table, r: L.Request, lists: seq<seq<nat>>, scans: seq<Part>)
    returns (m: Samples)
    requires LosslessRequest(x, t, r) && L.HoldsPlans(t, scans, r, Ids(x.frame.comps), lists)
    requires forall k :: 0 <= k < |lists| ==> Acceptable(r, lists[k])
    ensures DecodeFile(FileBytes(HeaderParts(x) + scans)) == Some(Decoded(Told(x), map[], m))
    ensures PartOf(m, r.planes) && forall s :: s in m <==> SomeCarries(r, lists, s)
  {
    var none := Decoded(NO_HEADER, map[], map[]);
    var d := none.(h := Told(x));
    HeaderReadsBack(x);
    OneTable(x.huff, t);
    FileSplits(HeaderParts(x), scans);
    SegmentsDecoded(HeaderParts(x), PartsBytes(scans) + EOI, none);
    m := ScansDecoded(d, x, t, r, lists, scans);
  }

  lemma {:induction false} OneTable(huff: seq<(Byte, Table)>, t: Table)
    requires huff == [(0, t)]
    ensures Keyed(huff) == map[0 := t]
  {
    assert huff[..0] == [];
  }

  // write_lossless, whole.
  method WriteLossless(x: Request, t: Table, r: L.Request, interleave: bool, listed: Option<seq<seq<nat>>>, eoi: bool)
    returns (out: seq<Byte>, ghost scans: seq<Part>)
    requires LosslessRequest(x, t, r)
    requires forall cidx :: cidx in L.ScanLists(|r.fs|, interleave, listed) ==> r.Ready(cidx) && |cidx| < 256
    ensures out == Joined(HeaderParts(x) + scans, eoi)
    ensures L.HoldsPlans(t, scans, r, Ids(x.frame.comps), L.ScanLists(|r.fs|, interleave, listed))
  {
    var header := WriteHeader(x);
    out, scans := L.WriteLossless(t, r, interleave, listed, header, HeaderParts(x), Ids(x.frame.comps), eoi);
  }
}
