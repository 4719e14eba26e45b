// The two writers, whole: which scans they write with which geometry, and the file they make of them.
module JpegFile {
  import opened Common
  import opened JpegBits
  import opened JpegHuffman
  import opened JpegValues
  import opened JpegBlock
  import opened JpegScan
  import opened JpegUnits
  import opened JpegLossless
  import opened JpegOrder
  import opened JpegLosslessScan
  import opened JpegMarkers

  // A component's sampling factors.
  datatype Factors = Factors(h: nat, v: nat)

  function CeilDiv(a: nat, b: nat): nat
    requires b > 0
  {
    (a + b - 1) / b
  }

  // The least number of b's that hold a.
  lemma {:induction false} CeilDivIs(a: nat, b: nat)
    requires b > 0
    ensures a <= CeilDiv(a, b) * b && (CeilDiv(a, b) > 0 ==> (CeilDiv(a, b) - 1) * b < a)
  {
    var n := (a + b - 1) / b;
    assert a + b - 1 == n * b + (a + b - 1) % b;
    assert (n - 1) * b == n * b - b;
  }

  function HMax(fs: seq<Factors>): nat {
    if fs == [] then 0
    else
      var m := HMax(fs[..|fs| - 1]);
      if fs[|fs| - 1].h > m then fs[|fs| - 1].h else m
  }

  function VMax(fs: seq<Factors>): nat {
    if fs == [] then 0
    else
      var m := VMax(fs[..|fs| - 1]);
      if fs[|fs| - 1].v > m then fs[|fs| - 1].v else m
  }

  // They bound every component's factors and are some component's.
  lemma {:induction false} MaximaAre(fs: seq<Factors>) returns (i: nat, j: nat)
    requires fs != []
    ensures i < |fs| && fs[i].h == HMax(fs) && j < |fs| && fs[j].v == VMax(fs)
    ensures forall k :: 0 <= k < |fs| ==> fs[k].h <= HMax(fs) && fs[k].v <= VMax(fs)
  {
    var n := |fs| - 1;
    i, j := n, n;
    if n > 0 {
      i, j := MaximaAre(fs[..n]);
      forall k | 0 <= k < |fs| ensures fs[k].h <= HMax(fs) && fs[k].v <= VMax(fs) {
        if k < n { assert fs[k] == fs[..n][k]; }
      }
      if fs[n].h > HMax(fs[..n]) { i := n; }
      if fs[n].v > VMax(fs[..n]) { j := n; }
    }
  }

  // A scan: its components, and how many MCUs down and across.
  datatype Geometry = Geometry(comps: seq<Comp>, mcuy: nat, mcux: nat)
  {
    function Units(): seq<seq<Ref>> { Concat(UnitRows(comps, mcuy, mcux)) }
  }

  function Interleaved(fs: seq<Factors>, cidx: seq<nat>): (comps: seq<Comp>)
    requires forall c :: c in cidx ==> c < |fs|
    ensures |comps| == |cidx|
    ensures forall i :: 0 <= i < |cidx| ==> cidx[i] < |fs| && comps[i] == Comp(cidx[i], fs[cidx[i]].h, fs[cidx[i]].v)
  {
    assert forall i :: 0 <= i < |cidx| ==> cidx[i] in cidx;
    seq(|cidx|, i requires 0 <= i < |cidx| => assert cidx[i] in cidx; Comp(cidx[i], fs[cidx[i]].h, fs[cidx[i]].v))
  }

  // ---------- baseline ----------

  // The scans of write_jpeg: one of all components, or one a component whose MCU is one block.
  function BaselineScans(fs: seq<Factors>, width: nat, height: nat, interleave: bool): (r: seq<Geometry>)
    requires HMax(fs) > 0 && VMax(fs) > 0
    ensures forall g :: g in r ==> Distinct(g.comps)
  {
    var hmax, vmax := HMax(fs), VMax(fs);
    if interleave || |fs| == 1 then
      [Geometry(Interleaved(fs, UpTo(|fs|)), CeilDiv(height, 8 * vmax), CeilDiv(width, 8 * hmax))]
    else
      seq(|fs|, c requires 0 <= c < |fs| =>
        Geometry([Comp(c, 1, 1)], CeilDiv(CeilDiv(height * fs[c].v, vmax), 8), CeilDiv(CeilDiv(width * fs[c].h, hmax), 8)))
  }

  // The payload of a baseline SOS.
  function ScanHeader(ids: seq<Byte>, comps: seq<Comp>, last: seq<Byte>): (s: seq<Byte>)
    requires |comps| < 256 && |last| == 3 && forall k :: k in comps ==> k.c < |ids|
    ensures |s| == 4 + 2 * |comps|
  {
    [|comps|] + Selectors(ids, comps) + last
  }

  function Selectors(ids: seq<Byte>, comps: seq<Comp>): (s: seq<Byte>)
    requires forall k :: k in comps ==> k.c < |ids|
    ensures |s| == 2 * |comps|
  {
    if comps == [] then [] else Selectors(ids, comps[..|comps| - 1]) + [ids[comps[|comps| - 1].c], 0x00]
  }

  ghost predicate ScanWritable(g: Geometry, coefs: Coefs, restart: nat) {
    forall iv :: iv in Intervals(g.Units(), restart) ==> Writable(iv, coefs)
  }

  // The tables a baseline file is coded with.
  datatype Tables = Tables(dc: Table, ac: Table)
  {
    ghost predicate Valid() { Covers(dc, 16) && Covers(ac, 256) }
  }

  // The script's own.
  const BASELINE: Tables := Tables(DC, AC)

  lemma {:induction false} BaselineTables()
    ensures BASELINE.Valid()
  {
    TablesCover();
  }

  // A part that holds the scan of g, with the header that names its components.
  ghost predicate HoldsScan(tabs: Tables, p: Part, g: Geometry, ids: seq<Byte>, coefs: Coefs, restart: nat)
    requires tabs.Valid()
  {
    p.ScanPart? && AllCoded(tabs.dc, tabs.ac, p.chunks, Intervals(g.Units(), restart), coefs)
    && Fit(g, ids) && p.header == ScanHeader(ids, g.comps, [0, 63, 0])
  }

  // What a file is once its parts are joined, EOI or not.
  ghost function Joined(parts: seq<Part>, eoi: bool): seq<Byte>
  {
    [0xFF, 0xD8] + (PartsBytes(parts) + if eoi then EOI else [])
  }

  lemma {:induction false} UnitsComps(g: Geometry, unit: seq<Ref>, r: Ref)
    requires Distinct(g.comps) && unit in g.Units() && r in unit
    ensures r.c in set k | k in g.comps :: k.c
  {
    InConcat(g.Units(), unit, r);
    Counted(Concat(g.Units()), r);
    UnitRowsCount(g.comps, g.mcuy, g.mcux, r);
    var i :| 0 <= i < |g.comps| && InGridOf(g.comps[i], g.mcuy, g.mcux, r);
    assert g.comps[i] in g.comps;
  }

  lemma {:induction false} InConcat(units: seq<seq<Ref>>, unit: seq<Ref>, r: Ref)
    requires unit in units && r in unit
    ensures r in Concat(units)
  {
    var n := |units| - 1;
    if unit in units[..n] {
      InConcat(units[..n], unit, r);
    } else {
      assert units == units[..n] + [units[n]];
    }
  }

  // One scan of write_jpeg: its SOS segment and its data.
  method WriteScan(tabs: Tables, dcCodes: map<nat, Code>, acCodes: map<nat, Code>, g: Geometry, ids: seq<Byte>,
                   coefs: Coefs, restart: nat)
    returns (bytes: seq<Byte>, ghost part: Part)
    requires tabs.Valid() && dcCodes == tabs.dc.CodeMap() && acCodes == tabs.ac.CodeMap()
    requires Fit(g, ids) && ScanWritable(g, coefs, restart)
    ensures HoldsScan(tabs, part, g, ids, coefs, restart) && bytes == PartBytes(part)
  {
    var units := Units(g.comps, g.mcuy, g.mcux);
    var cidx := set k | k in g.comps :: k.c;
    forall unit, r | unit in units && r in unit ensures r.c in cidx {
      UnitsComps(g, unit, r);
    }
    var data, chunks := Scan(tabs.dc, tabs.ac, dcCodes, acCodes, units, coefs, cidx, restart);
    var header := ScanHeader(ids, g.comps, [0, 63, 0]);
    bytes := Seg(0xDA, header) + data;
    part := ScanPart(header, chunks);
  }

  // ---------- the baseline writer ----------

  // The parts of a file after its header segments: one scan each, of these geometries.
  ghost predicate HoldsScans(tabs: Tables, parts: seq<Part>, gs: seq<Geometry>, ids: seq<Byte>, coefs: Coefs, restart: nat)
    requires tabs.Valid()
  {
    |parts| == |gs| && forall k :: 0 <= k < |gs| ==> HoldsScan(tabs, parts[k], gs[k], ids, coefs, restart)
  }

  // The scans of write_jpeg, after what `out` already holds.
  method WriteScans(tabs: Tables, gs: seq<Geometry>, ids: seq<Byte>, coefs: Coefs, restart: nat, out: seq<Byte>,
                    ghost segments: seq<Part>)
    returns (bytes: seq<Byte>, ghost scans: seq<Part>)
    requires tabs.Valid() && out == [0xFF, 0xD8] + PartsBytes(segments)
    requires forall g :: g in gs ==> ScanWritable(g, coefs, restart) && Fit(g, ids)
    ensures HoldsScans(tabs, scans, gs, ids, coefs, restart) && bytes == [0xFF, 0xD8] + PartsBytes(segments + scans)
  {
    var dcCodes := Codes(tabs.dc.bits, tabs.dc.vals);
    var acCodes := Codes(tabs.ac.bits, tabs.ac.vals);
    bytes, scans := out, [];
    assert segments + [] == segments;
    for k := 0 to |gs|
      invariant HoldsScans(tabs, scans, gs[..k], ids, coefs, restart)
      invariant bytes == [0xFF, 0xD8] + PartsBytes(segments + scans)
    {
      var more, part := WriteScan(tabs, dcCodes, acCodes, gs[k], ids, coefs, restart);
      JoinScan(bytes, segments, scans, part, more);
      MoreScans(tabs, scans, gs, k, part, ids, coefs, restart);
      bytes, scans := bytes + more, scans + [part];
    }
    assert gs[..|gs|] == gs;
  }

  // The components of a scan are distinct, and the header can name them.
  ghost predicate Fit(g: Geometry, ids: seq<Byte>) {
    Distinct(g.comps) && |g.comps| < 256 && forall k :: k in g.comps ==> k.c < |ids|
  }

  lemma {:induction false} MoreScans(tabs: Tables, scans: seq<Part>, gs: seq<Geometry>, k: nat, part: Part, ids: seq<Byte>, coefs: Coefs, restart: nat)
    requires tabs.Valid() && k < |gs| && HoldsScans(tabs, scans, gs[..k], ids, coefs, restart)
    requires HoldsScan(tabs, part, gs[k], ids, coefs, restart)
    ensures HoldsScans(tabs, scans + [part], gs[..k + 1], ids, coefs, restart)
  {
  }

  lemma {:induction false} JoinScan(bytes: seq<Byte>, segments: seq<Part>, scans: seq<Part>, part: Part, more: seq<Byte>)
    requires bytes == [0xFF, 0xD8] + PartsBytes(segments + scans) && more == PartBytes(part)
    ensures bytes + more == [0xFF, 0xD8] + PartsBytes(segments + (scans + [part]))
  {
    PartsAppend(segments + scans, part, more);
    ConcatAssoc([0xFF, 0xD8], PartsBytes(segments + scans), more);
    assert (segments + scans) + [part] == segments + (scans + [part]);
  }

  // write_jpeg, from the header segments on.
  method WriteJpeg(tabs: Tables, fs: seq<Factors>, width: nat, height: nat, header: seq<Byte>, ghost segments: seq<Part>,
                   ids: seq<Byte>, coefs: Coefs, restart: nat, interleave: bool, eoi: bool)
    returns (out: seq<Byte>, ghost scans: seq<Part>)
    requires tabs.Valid() && HMax(fs) > 0 && VMax(fs) > 0 && |fs| <= |ids| && |fs| < 256 && header == PartsBytes(segments)
    requires forall g :: g in BaselineScans(fs, width, height, interleave) ==> ScanWritable(g, coefs, restart)
    ensures HoldsScans(tabs, scans, BaselineScans(fs, width, height, interleave), ids, coefs, restart)
    ensures out == Joined(segments + scans, eoi)
  {
    var gs := BaselineScans(fs, width, height, interleave);
    forall g | g in gs ensures Fit(g, ids) {
      ScanComps(fs, width, height, interleave, g);
    }
    out, scans := WriteScans(tabs, gs, ids, coefs, restart, [0xFF, 0xD8] + header, segments);
    ghost var all := PartsBytes(segments + scans);
    ConcatAssoc([0xFF, 0xD8], all, if eoi then EOI else []);
    if eoi {
      out := out + [0xFF, 0xD9];
    } else {
      assert out + [] == out;
    }
  }

  lemma {:induction false} ScanComps(fs: seq<Factors>, width: nat, height: nat, interleave: bool, g: Geometry)
    requires HMax(fs) > 0 && VMax(fs) > 0 && g in BaselineScans(fs, width, height, interleave)
    ensures |g.comps| <= |fs| && forall q :: q in g.comps ==> q.c < |fs|
  {
    forall q | q in g.comps ensures q.c < |fs| {
    }
  }

  // ---------- what a decoder makes of the file ----------

  // Where part j starts, the first part starting at i.
  ghost function Offset(parts: seq<Part>, j: nat, i: nat): nat
    requires j < |parts|
    decreases j
  {
    if j == 0 then i else Offset(parts[1..], j - 1, i + PartSize(parts[0]))
  }

  // Part j sits at its offset, and a marker follows it.
  lemma {:induction false} PartAt(b: seq<Byte>, parts: seq<Part>, j: nat, i: nat)
    requires j < |parts| && i <= |b| && b[i..] == PartsBytes(parts) + EOI
    ensures Offset(parts, j, i) <= |b|
    ensures b[Offset(parts, j, i)..] == PartBytes(parts[j]) + (PartsBytes(parts[j + 1..]) + EOI)
    decreases j
  {
    var head := PartBytes(parts[0]);
    FirstPart(parts, head);
    ConcatAssoc(head, PartsBytes(parts[1..]), EOI);
    if j > 0 {
      AfterHead(b, i, head, PartsBytes(parts[1..]) + EOI);
      PartAt(b, parts[1..], j - 1, i + PartSize(parts[0]));
      RestOfRest(parts, j);
    }
  }

  lemma {:induction false} AfterHead(b: seq<Byte>, i: nat, head: seq<Byte>, rest: seq<Byte>)
    requires i <= |b| && b[i..] == head + rest
    ensures i + |head| <= |b| && b[i + |head|..] == rest
  {
    assert b[i..][|head|..] == rest;
  }

  lemma {:induction false} RestOfRest<T>(s: seq<T>, j: nat)
    requires 0 < j < |s|
    ensures s[1..][j - 1] == s[j] && s[1..][j - 1 + 1..] == s[j + 1..]
  {
  }

  // Its offset is found by the search exactly when it is a scan.
  lemma {:induction false} OffsetFound(parts: seq<Part>, j: nat, i: nat)
    requires j < |parts|
    ensures parts[j].ScanPart? <==> Offset(parts, j, i) in SosAt(parts, i)
    ensures Offset(parts, j, i) >= i && (j > 0 ==> Offset(parts, j, i) > i)
    decreases j
  {
    var next := i + PartSize(parts[0]);
    SosHead(parts, i, next, Offset(parts, j, i));
    if j == 0 {
      SosAfter(parts[1..], next, i);
    } else {
      OffsetFound(parts[1..], j - 1, next);
    }
  }

  lemma {:induction false} SosHead(parts: seq<Part>, i: nat, next: nat, at: nat)
    requires parts != [] && next == i + PartSize(parts[0])
    ensures at in SosAt(parts, i) <==> (parts[0].ScanPart? && at == i) || at in SosAt(parts[1..], next)
  {
    InEither(SosHere(parts[0], i), SosAt(parts[1..], next), at);
  }

  lemma {:induction false} InEither(a: seq<nat>, b: seq<nat>, x: nat)
    ensures x in a + b <==> x in a || x in b
  {
  }

  lemma {:induction false} SosAfter(parts: seq<Part>, i: nat, at: nat)
    ensures at in SosAt(parts, i) ==> at >= i
    decreases |parts|
  {
    if parts != [] {
      var next := i + PartSize(parts[0]);
      SosHead(parts, i, next, at);
      SosAfter(parts[1..], next, at);
    }
  }

  // The search finds a scan of geometry g at i, and what follows its header decodes to the blocks of g.
  ghost predicate FoundAndDecoded(tabs: Tables, b: seq<Byte>, i: nat, header: seq<Byte>, g: Geometry, coefs: Coefs, restart: nat)
    requires tabs.Valid()
  {
    var found := Walk(b, 2, []);
    var data := i + 4 + |header|;
    found.Some? && i in found.value && data <= |b| && DecodesTo(tabs, b[data..], g, coefs, restart)
  }

  // A file of write_jpeg, closed with EOI: the search finds each scan, and decoding from there gives exactly the
  // blocks of its geometry, each as it was coded.
  lemma {:induction false} JpegRoundTrip(tabs: Tables, segments: seq<Part>, scans: seq<Part>, gs: seq<Geometry>,
                                         ids: seq<Byte>, coefs: Coefs, restart: nat, k: nat)
    requires tabs.Valid() && HoldsScans(tabs, scans, gs, ids, coefs, restart) && k < |gs| && Distinct(gs[k].comps)
    ensures Joined(segments + scans, true) == FileBytes(segments + scans) && scans[k].ScanPart?
    ensures FoundAndDecoded(tabs, FileBytes(segments + scans), Offset(segments + scans, |segments| + k, 2), scans[k].header,
                            gs[k], coefs, restart)
  {
    var parts, j := segments + scans, |segments| + k;
    assert parts[j] == scans[k];
    PartDecoded(tabs, parts, j, gs[k], ids, coefs, restart);
  }

  lemma {:induction false} PartDecoded(tabs: Tables, parts: seq<Part>, j: nat, g: Geometry, ids: seq<Byte>, coefs: Coefs, restart: nat)
    requires tabs.Valid() && j < |parts| && HoldsScan(tabs, parts[j], g, ids, coefs, restart) && Distinct(g.comps)
    ensures FoundAndDecoded(tabs, FileBytes(parts), Offset(parts, j, 2), parts[j].header, g, coefs, restart)
  {
    var b, i := FileBytes(parts), Offset(parts, j, 2);
    ScanOffsetsExact(parts);
    OffsetFound(parts, j, 2);
    PartData(parts, j);
    ScanDecodes(tabs, parts[j], g, ids, coefs, restart, PartsBytes(parts[j + 1..]) + EOI);
  }

  lemma {:induction false} PartData(parts: seq<Part>, j: nat)
    requires j < |parts| && parts[j].ScanPart?
    ensures var b, data := FileBytes(parts), Offset(parts, j, 2) + 4 + |parts[j].header|;
            data <= |b| && b[data..] == Entropy(parts[j].chunks) + (PartsBytes(parts[j + 1..]) + EOI)
    ensures StartsMarker(PartsBytes(parts[j + 1..]) + EOI)
  {
    var b, i, p := FileBytes(parts), Offset(parts, j, 2), parts[j];
    assert b[2..] == PartsBytes(parts) + EOI;
    PartAt(b, parts, j, 2);
    RestStartsMarker(parts[j + 1..]);
    DataAfterHeader(b, i, p.header, Entropy(p.chunks), PartsBytes(parts[j + 1..]) + EOI);
  }

  lemma {:induction false} DataAfterHeader(b: seq<Byte>, i: nat, header: seq<Byte>, data: seq<Byte>, tail: seq<Byte>)
    requires |header| < 0xFFFE && i <= |b| && b[i..] == (Seg(0xDA, header) + data) + tail
    ensures i + 4 + |header| <= |b| && b[i + 4 + |header|..] == data + tail
  {
    ConcatAssoc(Seg(0xDA, header), data, tail);
    SegmentAt(b, i, 0xDA, header, data + tail);
  }

  // Decoding the bytes gives exactly the blocks of g: each block of its grid, with its coefficients, and no other.
  ghost predicate DecodesTo(tabs: Tables, bytes: seq<Byte>, g: Geometry, coefs: Coefs, restart: nat)
    requires tabs.Valid()
  {
    var r := DecodeScan(tabs.dc, tabs.ac, bytes, g.Units(), restart);
    r.Some? && (forall ref :: ref in r.value.0 <==> InGrid(g.comps, g.mcuy, g.mcux, ref)) && Agrees(r.value.0, coefs)
  }

  lemma {:induction false} ScanDecodes(tabs: Tables, p: Part, g: Geometry, ids: seq<Byte>, coefs: Coefs, restart: nat, tail: seq<Byte>)
    requires tabs.Valid() && Distinct(g.comps) && StartsMarker(tail) && HoldsScan(tabs, p, g, ids, coefs, restart)
    ensures DecodesTo(tabs, Entropy(p.chunks) + tail, g, coefs, restart)
  {
    ScanRoundTrip(tabs.dc, tabs.ac, p.chunks, g.Units(), restart, coefs, tail);
    forall ref ensures ref in Concat(g.Units()) <==> InGrid(g.comps, g.mcuy, g.mcux, ref) {
      UnitRowsCount(g.comps, g.mcuy, g.mcux, ref);
      Counted(Concat(g.Units()), ref);
    }
  }
}
