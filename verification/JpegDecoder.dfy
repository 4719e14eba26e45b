// A decoder for whole files of either writer (ITU-T T.81, sections A.2, B.2 and F.2.1.3): it takes tables, frame and restart
// interval from the segments and the components of a scan from its header, and nothing but the bytes.
module JpegDecoder {
  import opened Common
  import opened JpegBits
  import opened JpegHuffman
  import opened JpegValues
  import opened JpegBlock
  import opened JpegScan
  import opened JpegUnits
  import opened JpegLossless
  import opened JpegOrder
  import opened JpegLosslessScan
  import opened JpegMarkers
  import opened JpegFile
  import opened JpegHeader

  function FactorsOf(f: Frame): (fs: seq<Factors>)
    ensures |fs| == |f.comps| && forall i :: 0 <= i < |fs| ==> fs[i] == Factors(f.comps[i].h, f.comps[i].v)
  {
    seq(|f.comps|, i requires 0 <= i < |f.comps| => Factors(f.comps[i].h, f.comps[i].v))
  }

  // The component a scan header names.
  function IndexOf(comps: seq<FrameComp>, id: Byte): (i: Option<nat>)
    ensures i.Some? ==> i.value < |comps| && comps[i.value].id == id
  {
    if comps == [] then None
    else if comps[|comps| - 1].id == id then Some(|comps| - 1)
    else IndexOf(comps[..|comps| - 1], id)
  }

  // Section B.2.3: the components, all with the same tables, and the last three bytes.
  datatype SosInfo = SosInfo(cidx: seq<nat>, last: seq<Byte>)

  function SosComps(comps: seq<FrameComp>, s: seq<Byte>, n: nat): (r: Option<seq<nat>>)
    requires 2 * n + 1 <= |s|
    ensures r.Some? ==> |r.value| == n && forall c :: c in r.value ==> c < |comps|
  {
    if n == 0 then Some([])
    else
      match SosComps(comps, s, n - 1)
      case None => None
      case Some(before) =>
        if s[2 * n] != 0x00 then None
        else
          match IndexOf(comps, s[2 * n - 1])
          case None => None
          case Some(c) => Some(before + [c])
  }

  function ReadSos(f: Frame, s: seq<Byte>): (r: Option<SosInfo>)
    ensures r.Some? ==> r.value.cidx != [] && |r.value.last| == 3 && forall c :: c in r.value.cidx ==> c < |f.comps|
  {
    if s == [] then None
    else
      var n: nat := s[0];
      if n == 0 || |s| != 4 + 2 * n then None
      else
        match SosComps(f.comps, s, n)
        case None => None
        case Some(cidx) => Some(SosInfo(cidx, s[1 + 2 * n..]))
  }

  // The samples of a component across or down the frame, per unit of `side` samples: section A.1.1 and A.2.2.
  function Extent(size: nat, factor: nat, most: nat, side: nat): nat
    requires most > 0 && side > 0
  {
    CeilDiv(CeilDiv(size * factor, most), side)
  }

  // Section A.2: a lone component is taken unit by unit, several MCU by MCU; units of `side` by `side` samples.
  function ScanGeometry(f: Frame, cidx: seq<nat>, side: nat): Geometry
    requires side > 0 && cidx != [] && (forall c :: c in cidx ==> c < |f.comps|)
    requires HMax(FactorsOf(f)) > 0 && VMax(FactorsOf(f)) > 0
  {
    var fs, hmax, vmax := FactorsOf(f), HMax(FactorsOf(f)), VMax(FactorsOf(f));
    if |cidx| == 1 then
      assert cidx[0] in cidx;
      Geometry([Comp(cidx[0], 1, 1)], Extent(f.height, fs[cidx[0]].v, vmax, side), Extent(f.width, fs[cidx[0]].h, hmax, side))
    else Geometry(Interleaved(fs, cidx), CeilDiv(f.height, side * vmax), CeilDiv(f.width, side * hmax))
  }

  // What has been decoded: the header so far, coefficient blocks, samples.
  datatype Decoded = Decoded(h: Header, blocks: Coefs, samples: Samples)

  predicate WellFormed(t: Table) { |t.bits| == 16 && Ptr(t.bits, 17) == |t.vals| }

  // One scan from what follows its header; also what follows the scan.
  ghost function ReadScan(d: Decoded, f: Frame, sos: SosInfo, data: seq<Byte>): Option<(Decoded, seq<Byte>)>
    requires sos.cidx != [] && |sos.last| == 3 && forall c :: c in sos.cidx ==> c < |f.comps|
  {
    if HMax(FactorsOf(f)) == 0 || VMax(FactorsOf(f)) == 0 || 0 !in d.h.huff || !WellFormed(d.h.huff[0]) then None
    else if f.sof == 0xC0 then
      if 16 !in d.h.huff || !WellFormed(d.h.huff[16]) || sos.last != [0, 63, 0] then None
      else
        match DecodeScan(d.h.huff[0], d.h.huff[16], data, ScanGeometry(f, sos.cidx, 8).Units(), d.h.restart)
        case None => None
        case Some((m, tail)) => Some((d.(blocks := d.blocks + m), tail))
    else if f.sof == 0xC3 then
      var g := ScanGeometry(f, sos.cidx, 1);
      if !(1 <= sos.last[0] <= 7) || sos.last[1] != 0 || sos.last[2] >= 16 then None
      else if d.h.restart != 0 && (g.mcux == 0 || d.h.restart % g.mcux != 0) then None
      else
        match DecodeLossless(d.h.huff[0], data, sos.last[0], Start(f.precision, sos.last[2]), g.comps, g.mcuy, g.mcux,
                             if d.h.restart == 0 then 0 else d.h.restart / g.mcux)
        case None => None
        case Some((m, tail)) => Some((d.(samples := d.samples + m), tail))
    else None
  }

  // What follows SOI, up to EOI.
  ghost function DecodeBody(b: seq<Byte>, d: Decoded): Option<Decoded>
    decreases |b|
  {
    if |b| < 2 || b[0] != 0xFF then None
    else if b[1] == 0xD9 then Some(d)
    else if |b| < 4 || BigEndian(b[2], b[3]) < 2 || 2 + BigEndian(b[2], b[3]) > |b| then None
    else
      var end := 2 + BigEndian(b[2], b[3]);
      var payload, rest := b[4..end], b[end..];
      if b[1] != 0xDA then
        match ReadSegment(d.h, b[1], payload)
        case None => None
        case Some(h) => DecodeBody(rest, d.(h := h))
      else if d.h.frame.None? then None
      else
        match ReadSos(d.h.frame.value, payload)
        case None => None
        case Some(sos) =>
          match ReadScan(d, d.h.frame.value, sos, rest)
          case None => None
          case Some((d', tail)) => if |tail| > |rest| then None else DecodeBody(tail, d')
  }

  ghost function DecodeFile(b: seq<Byte>): Option<Decoded> {
    if |b| < 2 || b[..2] != [0xFF, 0xD8] then None else DecodeBody(b[2..], Decoded(NO_HEADER, map[], map[]))
  }

  // ---------- the segments ----------

  lemma {:induction false} SegmentDecoded(marker: Byte, payload: seq<Byte>, rest: seq<Byte>, d: Decoded)
    requires Segment(marker, payload).Valid()
    ensures DecodeBody(Seg(marker, payload) + rest, d) ==
            match ReadSegment(d.h, marker, payload)
            case None => None
            case Some(h) => DecodeBody(rest, d.(h := h))
  {
    var b := Seg(marker, payload) + rest;
    assert b[0..] == b;
    SegmentAt(b, 0, marker, payload, rest);
    assert b[4..4 + |payload|] == payload;
  }

  lemma {:induction false} SegmentsDecoded(parts: seq<Part>, rest: seq<Byte>, d: Decoded)
    requires ReadSegments(d.h, parts).Some?
    ensures DecodeBody(PartsBytes(parts) + rest, d) == DecodeBody(rest, d.(h := ReadSegments(d.h, parts).value))
    decreases |parts|
  {
    if parts == [] {
      assert PartsBytes(parts) + rest == rest && d.(h := d.h) == d;
    } else {
      var p := parts[0];
      var head := PartBytes(p);
      FirstPart(parts, head);
      ConcatAssoc(head, PartsBytes(parts[1..]), rest);
      SegmentDecoded(p.marker, p.payload, PartsBytes(parts[1..]) + rest, d);
      SegmentsDecoded(parts[1..], rest, d.(h := ReadSegment(d.h, p.marker, p.payload).value));
    }
  }

  // ---------- scan headers ----------

  ghost predicate DistinctIds(comps: seq<FrameComp>) { forall i, j :: 0 <= i < j < |comps| ==> comps[i].id != comps[j].id }

  function Ids(comps: seq<FrameComp>): (ids: seq<Byte>)
    ensures |ids| == |comps| && forall i :: 0 <= i < |comps| ==> ids[i] == comps[i].id
  {
    seq(|comps|, i requires 0 <= i < |comps| => comps[i].id)
  }

  lemma {:induction false} IdFound(comps: seq<FrameComp>, c: nat)
    requires DistinctIds(comps) && c < |comps|
    ensures IndexOf(comps, comps[c].id) == Some(c)
  {
    var n := |comps| - 1;
    if c < n { IdFound(comps[..n], c); }
  }

  function CidxOf(comps: seq<Comp>): (cidx: seq<nat>)
    ensures |cidx| == |comps| && forall i :: 0 <= i < |comps| ==> cidx[i] == comps[i].c
  {
    seq(|comps|, i requires 0 <= i < |comps| => comps[i].c)
  }

  lemma {:induction false} SelectorsRead(f: seq<FrameComp>, comps: seq<Comp>, s: seq<Byte>)
    requires DistinctIds(f) && (forall k :: k in comps ==> k.c < |f|)
    requires 1 + 2 * |comps| <= |s| && s[1..1 + 2 * |comps|] == Selectors(Ids(f), comps)
    ensures SosComps(f, s, |comps|) == Some(CidxOf(comps))
  {
    if comps == [] {
      assert CidxOf(comps) == [];
    } else {
      var n := |comps| - 1;
      var sel := Selectors(Ids(f), comps);
      assert sel[..2 * n] == Selectors(Ids(f), comps[..n]);
      assert s[1..1 + 2 * n] == s[1..1 + 2 * |comps|][..2 * n];
      SelectorsRead(f, comps[..n], s);
      assert comps[n] in comps;
      assert s[1 + 2 * n] == sel[2 * n] == f[comps[n].c].id && s[2 + 2 * n] == sel[2 * n + 1] == 0x00;
      IdFound(f, comps[n].c);
      assert CidxOf(comps) == CidxOf(comps[..n]) + [comps[n].c];
    }
  }

  // The scan header names the components of the scan.
  lemma {:induction false} SosReads(f: Frame, comps: seq<Comp>, last: seq<Byte>)
    requires DistinctIds(f.comps) && 0 < |comps| < 256 && |last| == 3 && forall k :: k in comps ==> k.c < |f.comps|
    ensures ReadSos(f, ScanHeader(Ids(f.comps), comps, last)) == Some(SosInfo(CidxOf(comps), last))
  {
    var s := ScanHeader(Ids(f.comps), comps, last);
    assert s[1..1 + 2 * |comps|] == Selectors(Ids(f.comps), comps) && s[1 + 2 * |comps|..] == last;
    SelectorsRead(f.comps, comps, s);
  }

  // ---------- baseline scans ----------

  // The blocks a scan of g carries.
  ghost function BlocksOf(g: Geometry, coefs: Coefs): (m: Coefs)
    requires Has(coefs, Concat(g.Units()))
  {
    map r | r in Concat(g.Units()) :: coefs[r]
  }

  // The decoder is where a scan of g coded with these tables starts.
  ghost predicate ReadyFor(d: Decoded, f: Frame, tabs: Tables, g: Geometry, restart: nat)
    requires tabs.Valid()
  {
    d.h.frame == Some(f) && f.sof == 0xC0 && DistinctIds(f.comps) && d.h.restart == restart
    && 0 in d.h.huff && d.h.huff[0] == tabs.dc && 16 in d.h.huff && d.h.huff[16] == tabs.ac && Placed(f, g, 8)
  }

  // The decoder takes a scan with the components of g to have the geometry g.
  ghost predicate Placed(f: Frame, g: Geometry, side: nat)
    requires side > 0
  {
    HMax(FactorsOf(f)) > 0 && VMax(FactorsOf(f)) > 0 && g.comps != [] && (forall k :: k in g.comps ==> k.c < |f.comps|)
    && (forall c :: c in CidxOf(g.comps) ==> c < |f.comps|) && ScanGeometry(f, CidxOf(g.comps), side) == g
  }

  // A scan part is its header and its data.
  lemma {:induction false} PartOfScan(header: seq<Byte>, data: seq<Byte>, rest: seq<Byte>, d: Decoded, f: Frame, sos: SosInfo,
                                      d': Decoded)
    requires |header| < 0xFFFE && d.h.frame == Some(f) && ReadSos(f, header) == Some(sos)
    requires ReadScan(d, f, sos, data + rest) == Some((d', rest))
    ensures DecodeBody((Seg(0xDA, header) + data) + rest, d) == DecodeBody(rest, d')
  {
    var b := Seg(0xDA, header) + (data + rest);
    ConcatAssoc(Seg(0xDA, header), data, rest);
    assert b[0..] == b;
    SegmentAt(b, 0, 0xDA, header, data + rest);
    assert b[4..4 + |header|] == header;
  }

  lemma {:induction false} BaselineScanRead(tabs: Tables, p: Part, g: Geometry, coefs: Coefs, restart: nat, f: Frame,
                                            rest: seq<Byte>, d: Decoded)
    requires tabs.Valid() && ReadyFor(d, f, tabs, g, restart) && HoldsScan(tabs, p, g, Ids(f.comps), coefs, restart)
    requires StartsMarker(rest)
    ensures Has(coefs, Concat(g.Units()))
    ensures ReadScan(d, f, SosInfo(CidxOf(g.comps), [0, 63, 0]), Entropy(p.chunks) + rest) ==
            Some((d.(blocks := d.blocks + BlocksOf(g, coefs)), rest))
  {
    ScanRoundTrip(tabs.dc, tabs.ac, p.chunks, g.Units(), restart, coefs, rest);
  }

  lemma {:induction false} BaselineScanDecoded(tabs: Tables, p: Part, g: Geometry, coefs: Coefs, restart: nat, f: Frame,
                                               rest: seq<Byte>, d: Decoded)
    requires tabs.Valid() && ReadyFor(d, f, tabs, g, restart) && HoldsScan(tabs, p, g, Ids(f.comps), coefs, restart)
    requires StartsMarker(rest)
    ensures Has(coefs, Concat(g.Units()))
    ensures DecodeBody(PartBytes(p) + rest, d) == DecodeBody(rest, d.(blocks := d.blocks + BlocksOf(g, coefs)))
  {
    BaselineScanRead(tabs, p, g, coefs, restart, f, rest, d);
    SosReads(f, g.comps, [0, 63, 0]);
    PartOfScan(p.header, Entropy(p.chunks), rest, d, f, SosInfo(CidxOf(g.comps), [0, 63, 0]),
               d.(blocks := d.blocks + BlocksOf(g, coefs)));
  }

  ghost predicate SomeHolds(gs: seq<Geometry>, r: Ref) { exists k :: 0 <= k < |gs| && r in Concat(gs[k].Units()) }

  lemma {:induction false} FirstOrLater(gs: seq<Geometry>, r: Ref)
    requires gs != []
    ensures SomeHolds(gs, r) <==> r in Concat(gs[0].Units()) || SomeHolds(gs[1..], r)
  {
    if k :| 0 <= k < |gs| && r in Concat(gs[k].Units()) {
      if k > 0 { assert r in Concat(gs[1..][k - 1].Units()); }
    }
    if k :| 0 <= k < |gs[1..]| && r in Concat(gs[1..][k].Units()) {
      assert r in Concat(gs[k + 1].Units());
    }
  }

  // m' is m and the blocks of the scans of gs.
  ghost predicate HasBlocks(m': Coefs, m: Coefs, gs: seq<Geometry>, coefs: Coefs) {
    (Agrees(m, coefs) ==> Agrees(m', coefs)) && forall r :: r in m' <==> r in m || SomeHolds(gs, r)
  }

  lemma {:induction false} MoreBlocks(m': Coefs, m: Coefs, gs: seq<Geometry>, coefs: Coefs)
    requires gs != [] && Has(coefs, Concat(gs[0].Units()))
    requires HasBlocks(m', m + BlocksOf(gs[0], coefs), gs[1..], coefs)
    ensures HasBlocks(m', m, gs, coefs)
  {
    forall r ensures r in m' <==> r in m || SomeHolds(gs, r) {
      FirstOrLater(gs, r);
    }
  }

  // The scans of a file, one after the other, up to EOI.
  lemma {:induction false} ScansDecoded(tabs: Tables, scans: seq<Part>, gs: seq<Geometry>, coefs: Coefs, restart: nat, f: Frame,
                                        d: Decoded) returns (m: Coefs)
    requires tabs.Valid() && HoldsScans(tabs, scans, gs, Ids(f.comps), coefs, restart)
    requires forall k :: 0 <= k < |gs| ==> ReadyFor(d, f, tabs, gs[k], restart)
    ensures DecodeBody(PartsBytes(scans) + EOI, d) == Some(d.(blocks := m)) && HasBlocks(m, d.blocks, gs, coefs)
    decreases |gs|
  {
    if gs == [] {
      m := d.blocks;
      assert PartsBytes(scans) + EOI == EOI && d.(blocks := m) == d;
    } else {
      var head := PartBytes(scans[0]);
      FirstPart(scans, head);
      ConcatAssoc(head, PartsBytes(scans[1..]), EOI);
      RestStartsMarker(scans[1..]);
      assert HoldsScan(tabs, scans[0], gs[0], Ids(f.comps), coefs, restart) && ReadyFor(d, f, tabs, gs[0], restart);
      BaselineScanDecoded(tabs, scans[0], gs[0], coefs, restart, f, PartsBytes(scans[1..]) + EOI, d);
      var d' := d.(blocks := d.blocks + BlocksOf(gs[0], coefs));
      forall k | 0 <= k < |gs[1..]| ensures ReadyFor(d', f, tabs, gs[1..][k], restart) {
        assert ReadyFor(d, f, tabs, gs[k + 1], restart);
      }
      m := ScansDecoded(tabs, scans[1..], gs[1..], coefs, restart, f, d');
      MoreBlocks(m, d.blocks, gs, coefs);
    }
  }

  // ---------- a whole baseline file ----------

  // The writer's geometries are the decoder's. A lone component with larger factors is the exception: there the writer
  // keeps to its MCUs, and the standard does not.
  lemma {:induction false} BaselinePlaced(f: Frame, interleave: bool, g: Geometry)
    requires HMax(FactorsOf(f)) > 0 && VMax(FactorsOf(f)) > 0
    requires |f.comps| > 1 || (f.comps[0].h == 1 && f.comps[0].v == 1)
    requires g in BaselineScans(FactorsOf(f), f.width, f.height, interleave)
    ensures Placed(f, g, 8)
  {
    var fs := FactorsOf(f);
    if interleave || |fs| == 1 {
      assert CidxOf(g.comps) == UpTo(|fs|);
      if |fs| == 1 {
        LoneFactors(fs);
        assert g.comps == [Comp(0, 1, 1)];
      }
    } else {
      var c :| 0 <= c < |fs| && g.comps == [Comp(c, 1, 1)]
        && g == Geometry([Comp(c, 1, 1)], Extent(f.height, fs[c].v, VMax(fs), 8), Extent(f.width, fs[c].h, HMax(fs), 8));
      assert CidxOf(g.comps) == [c];
    }
  }

  lemma {:induction false} LoneFactors(fs: seq<Factors>)
    requires |fs| == 1
    ensures HMax(fs) == fs[0].h && VMax(fs) == fs[0].v
  {
    assert fs[..0] == [] && HMax(fs[..0]) == 0 && VMax(fs[..0]) == 0;
  }

  // What the writer was told of a baseline file: SOF0, distinct identifiers, the two tables under destination 0.
  ghost predicate BaselineRequest(x: Request, tabs: Tables) {
    x.Valid() && tabs.Valid() && x.frame.sof == 0xC0 && DistinctIds(x.frame.comps) && x.frame.comps != []
    && x.huff == [(0, tabs.dc), (16, tabs.ac)] && HMax(FactorsOf(x.frame)) > 0 && VMax(FactorsOf(x.frame)) > 0
  }

  // m is exactly the blocks of the grids of gs, each as it was coded.
  ghost predicate ExactlyBlocks(m: Coefs, gs: seq<Geometry>, coefs: Coefs) {
    Agrees(m, coefs)
    && forall r :: r in m <==> exists k :: 0 <= k < |gs| && InGrid(gs[k].comps, gs[k].mcuy, gs[k].mcux, r)
  }

  lemma {:induction false} InUnits(g: Geometry, r: Ref)
    requires Distinct(g.comps)
    ensures r in Concat(g.Units()) <==> InGrid(g.comps, g.mcuy, g.mcux, r)
  {
    UnitRowsCount(g.comps, g.mcuy, g.mcux, r);
    Counted(Concat(g.Units()), r);
  }

  lemma {:induction false} BlocksOfGrids(m: Coefs, gs: seq<Geometry>, coefs: Coefs)
    requires HasBlocks(m, map[], gs, coefs) && forall k :: 0 <= k < |gs| ==> Distinct(gs[k].comps)
    ensures ExactlyBlocks(m, gs, coefs)
  {
    forall r ensures r in m <==> exists k :: 0 <= k < |gs| && InGrid(gs[k].comps, gs[k].mcuy, gs[k].mcux, r) {
      forall k | 0 <= k < |gs|
        ensures r in Concat(gs[k].Units()) <==> InGrid(gs[k].comps, gs[k].mcuy, gs[k].mcux, r)
      {
        InUnits(gs[k], r);
      }
    }
  }

  // Main: from the bytes of a closed baseline file alone the decoder recovers everything the header was told, and
  // exactly the blocks of the scans, each as it was coded.
  lemma {:induction false} BaselineFileDecoded(x: Request, tabs: Tables, scans: seq<Part>, coefs: Coefs, interleave: bool)
    returns (m: Coefs)
    requires BaselineRequest(x, tabs) && (|x.frame.comps| > 1 || (x.frame.comps[0].h == 1 && x.frame.comps[0].v == 1))
    requires HoldsScans(tabs, scans, BaselineScans(FactorsOf(x.frame), x.frame.width, x.frame.height, interleave),
                        Ids(x.frame.comps), coefs, x.restart)
    ensures DecodeFile(FileBytes(HeaderParts(x) + scans)) == Some(Decoded(Told(x), m, map[]))
    ensures ExactlyBlocks(m, BaselineScans(FactorsOf(x.frame), x.frame.width, x.frame.height, interleave), coefs)
  {
    var gs := BaselineScans(FactorsOf(x.frame), x.frame.width, x.frame.height, interleave);
    var none := Decoded(NO_HEADER, map[], map[]);
    var d := none.(h := Told(x));
    HeaderReadsBack(x);
    TwoTables(x.huff, tabs);
    FileSplits(HeaderParts(x), scans);
    SegmentsDecoded(HeaderParts(x), PartsBytes(scans) + EOI, none);
    forall k | 0 <= k < |gs| ensures ReadyFor(d, x.frame, tabs, gs[k], x.restart) {
      BaselinePlaced(x.frame, interleave, gs[k]);
    }
    m := ScansDecoded(tabs, scans, gs, coefs, x.restart, x.frame, d);
    BlocksOfGrids(m, gs, coefs);
  }

  // write_jpeg, whole.
  method WriteBaseline(x: Request, tabs: Tables, coefs: Coefs, interleave: bool, eoi: bool)
    returns (out: seq<Byte>, ghost scans: seq<Part>)
    requires BaselineRequest(x, tabs) && |x.frame.comps| < 256
    requires forall g :: g in BaselineScans(FactorsOf(x.frame), x.frame.width, x.frame.height, interleave) ==>
      ScanWritable(g, coefs, x.restart)
    ensures out == Joined(HeaderParts(x) + scans, eoi)
    ensures HoldsScans(tabs, scans, BaselineScans(FactorsOf(x.frame), x.frame.width, x.frame.height, interleave),
                       Ids(x.frame.comps), coefs, x.restart)
  {
    var header := WriteHeader(x);
    out, scans := WriteJpeg(tabs, FactorsOf(x.frame), x.frame.width, x.frame.height, header, HeaderParts(x), Ids(x.frame.comps),
                            coefs, x.restart, interleave, eoi);
  }

  lemma {:induction false} TwoTables(huff: seq<(Byte, Table)>, tabs: Tables)
    requires huff == [(0, tabs.dc), (16, tabs.ac)]
    ensures Keyed(huff) == map[0 := tabs.dc, 16 := tabs.ac]
  {
    assert huff[..1] == [(0, tabs.dc)] && huff[..1][..0] == [];
    assert Keyed(huff[..1]) == map[0 := tabs.dc];
  }

  lemma {:induction false} FileSplits(a: seq<Part>, b: seq<Part>)
    ensures FileBytes(a + b)[..2] == [0xFF, 0xD8] && FileBytes(a + b)[2..] == PartsBytes(a) + (PartsBytes(b) + EOI)
  {
    PartsConcat(a, b);
    ConcatAssoc(PartsBytes(a), PartsBytes(b), EOI);
    assert FileBytes(a + b)[2..] == PartsBytes(a + b) + EOI;
  }
}
