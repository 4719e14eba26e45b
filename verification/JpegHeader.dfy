// The segments before the first scan: what the writer puts into them, and what a decoder reads out (ITU-T T.81, sections
// B.2.2, B.2.4.1, B.2.4.2 and B.2.4.4).
module JpegHeader {
  import opened Common
  import opened JpegBits
  import opened JpegHuffman
  import opened JpegBlock
  import opened JpegScan
  import opened JpegMarkers

  datatype FrameComp = FrameComp(id: Byte, h: nat, v: nat, tq: Byte)

  datatype Frame = Frame(sof: Byte, precision: Byte, height: nat, width: nat, comps: seq<FrameComp>)

  // What a decoder knows before a scan: quantization tables by destination, the frame, Huffman tables by class and
  // destination, the restart interval.
  datatype Header = Header(qtabs: map<nat, Block>, frame: Option<Frame>, huff: map<nat, Table>, restart: nat)

  const NO_HEADER: Header := Header(map[], None, map[], 0)

  // ---------- read ----------

  function Words(s: seq<Byte>): (w: seq<int>)
    ensures |w| == |s| / 2
  {
    seq(|s| / 2, i requires 0 <= i < |s| / 2 => BigEndian(s[2 * i], s[2 * i + 1]))
  }

  // Section B.2.4.1: any number of tables, elements of one or two bytes in zigzag order.
  function ReadDqt(s: seq<Byte>, q: map<nat, Block>): Option<map<nat, Block>>
    decreases |s|
  {
    if s == [] then Some(q)
    else if s[0] >= 32 then None
    else if s[0] < 16 then
      if |s| < 65 then None else ReadDqt(s[65..], q[s[0] as nat := Natural(s[1..65])])
    else
      if |s| < 129 then None else ReadDqt(s[129..], q[s[0] - 16 := Natural(Words(s[1..129]))])
  }

  // Section B.2.4.2: any number of tables, each its sixteen counts and its values.
  function ReadDht(s: seq<Byte>, t: map<nat, Table>): Option<map<nat, Table>>
    decreases |s|
  {
    if s == [] then Some(t)
    else if |s| < 17 then None
    else
      var n := Ptr(s[1..17], 17);
      if |s| < 17 + n then None
      else ReadDht(s[17 + n..], t[s[0] as nat := Table(s[1..17], s[17..17 + n])])
  }

  function CompAt(s: seq<Byte>, i: nat): FrameComp
    requires 9 + 3 * i <= |s|
  {
    FrameComp(s[6 + 3 * i], s[7 + 3 * i] / 16, s[7 + 3 * i] % 16, s[8 + 3 * i])
  }

  // Section B.2.2.
  function ReadFrame(sof: Byte, s: seq<Byte>): Option<Frame> {
    if |s| < 6 then None
    else
      var n: nat := s[5];
      if |s| != 6 + 3 * n then None
      else Some(Frame(sof, s[0], BigEndian(s[1], s[2]), BigEndian(s[3], s[4]), seq(n, i requires 0 <= i < n => CompAt(s, i))))
  }

  // One segment; application data and comments are skipped.
  function ReadSegment(h: Header, marker: Byte, s: seq<Byte>): Option<Header> {
    if marker == 0xDB then
      match ReadDqt(s, h.qtabs)
      case None => None
      case Some(q) => Some(h.(qtabs := q))
    else if marker == 0xC4 then
      match ReadDht(s, h.huff)
      case None => None
      case Some(t) => Some(h.(huff := t))
    else if 0xC0 <= marker <= 0xC3 then
      if h.frame.Some? then None
      else
        match ReadFrame(marker, s)
        case None => None
        case Some(f) => Some(h.(frame := Some(f)))
    else if marker == 0xDD then if |s| == 2 then Some(h.(restart := BigEndian(s[0], s[1]))) else None
    else if 0xE0 <= marker <= 0xEF || marker == 0xFE then Some(h)
    else None
  }

  function ReadSegments(h: Header, parts: seq<Part>): Option<Header>
    decreases |parts|
  {
    if parts == [] then Some(h)
    else if parts[0].ScanPart? then None
    else
      match ReadSegment(h, parts[0].marker, parts[0].payload)
      case None => None
      case Some(h') => ReadSegments(h', parts[1..])
  }

  lemma {:induction false} ReadThenRead(h: Header, a: seq<Part>, b: seq<Part>)
    ensures ReadSegments(h, a + b) ==
            match ReadSegments(h, a)
            case None => None
            case Some(h') => ReadSegments(h', b)
    decreases |a|
  {
    if a == [] {
      assert a + b == b;
    } else {
      assert (a + b)[0] == a[0] && (a + b)[1..] == a[1..] + b;
      if !a[0].ScanPart? && ReadSegment(h, a[0].marker, a[0].payload).Some? {
        ReadThenRead(ReadSegment(h, a[0].marker, a[0].payload).value, a[1..], b);
      }
    }
  }

  // ---------- write ----------

  // What a writer is told of its header: application segments, quantization tables by destination with elements of one
  // or two bytes, the frame, the Huffman tables and the restart interval.
  datatype Request = Request(apps: seq<(Byte, seq<Byte>)>, qtabs: seq<(Byte, Block)>, wide: bool, frame: Frame,
                             huff: seq<(Byte, Table)>, restart: nat)
  {
    // What the packing of the fields accepts; destinations are keys of a dictionary.
    ghost predicate Valid() {
      (forall a :: a in apps ==> (0xE0 <= a.0 <= 0xEF || a.0 == 0xFE) && |a.1| < 0xFFFE)
      && (forall q :: q in qtabs ==> QtabOk(q))
      && (forall i, j :: 0 <= i < j < |qtabs| ==> qtabs[i].0 != qtabs[j].0)
      && FrameOk(frame) && (forall t :: t in huff ==> TableOk(t))
      && (forall i, j :: 0 <= i < j < |huff| ==> huff[i].0 != huff[j].0) && restart < 0x10000
    }

    ghost predicate QtabOk(q: (Byte, Block)) {
      q.0 < 16 && forall k :: 0 <= k < 64 ==> 0 <= q.1[k] < if wide then 0x10000 else 256
    }
  }

  ghost predicate FrameOk(f: Frame) {
    0xC0 <= f.sof <= 0xC3 && f.height < 0x10000 && f.width < 0x10000 && |f.comps| < 256
    && forall k :: k in f.comps ==> k.h < 16 && k.v < 16
  }

  ghost predicate TableOk(t: (Byte, Table)) {
    |t.1.bits| == 16 && Ptr(t.1.bits, 17) == |t.1.vals| < 0x10000 - 20
    && (forall i :: 0 <= i < 16 ==> t.1.bits[i] < 256) && forall i :: 0 <= i < |t.1.vals| ==> t.1.vals[i] < 256
  }

  function AsBytes(s: seq<int>): (b: seq<Byte>)
    requires forall i :: 0 <= i < |s| ==> 0 <= s[i] < 256
    ensures b == s
  {
    s
  }

  function Packed(s: seq<int>): (b: seq<Byte>)
    requires forall i :: 0 <= i < |s| ==> 0 <= s[i] < 0x10000
    ensures |b| == 2 * |s|
  {
    if s == [] then [] else Packed(s[..|s| - 1]) + [s[|s| - 1] / 256, s[|s| - 1] % 256]
  }

  lemma {:induction false} WordsPacked(s: seq<int>)
    requires forall i :: 0 <= i < |s| ==> 0 <= s[i] < 0x10000
    ensures Words(Packed(s)) == s
  {
    if s != [] {
      var n := |s| - 1;
      WordsPacked(s[..n]);
      forall i | 0 <= i < |s| ensures Words(Packed(s))[i] == s[i] {
        if i < n { assert Words(Packed(s[..n]))[i] == s[i]; }
      }
    }
  }

  lemma {:induction false} ZigzagRange(q: Block, hi: int)
    requires forall k :: 0 <= k < 64 ==> 0 <= q[k] < hi
    ensures forall k :: 0 <= k < 64 ==> 0 <= Zigzag(q)[k] < hi
  {
    forall k | 0 <= k < 64 ensures 0 <= Zigzag(q)[k] < hi { ZigzagAt(q, 64, k); }
  }

  function DqtPayload(tq: Byte, q: Block, wide: bool): (s: seq<Byte>)
    requires tq < 16 && forall k :: 0 <= k < 64 ==> 0 <= q[k] < if wide then 0x10000 else 256
    ensures |s| == if wide then 129 else 65
  {
    ZigzagRange(q, if wide then 0x10000 else 256);
    if wide then [16 + tq] + Packed(Zigzag(q)) else [tq] + AsBytes(Zigzag(q))
  }

  function SofComps(comps: seq<FrameComp>): (s: seq<Byte>)
    requires forall k :: k in comps ==> k.h < 16 && k.v < 16
    ensures |s| == 3 * |comps|
  {
    if comps == [] then []
    else
      var k := comps[|comps| - 1];
      SofComps(comps[..|comps| - 1]) + [k.id, 16 * k.h + k.v, k.tq]
  }

  function SofPayload(f: Frame): (s: seq<Byte>)
    requires FrameOk(f)
    ensures |s| == 6 + 3 * |f.comps|
  {
    [f.precision, f.height / 256, f.height % 256, f.width / 256, f.width % 256, |f.comps|] + SofComps(f.comps)
  }

  function DhtPayload(tcth: Byte, t: Table): (s: seq<Byte>)
    requires TableOk((tcth, t))
    ensures |s| == 17 + |t.vals|
  {
    [tcth] + AsBytes(t.bits) + AsBytes(t.vals)
  }

  // ---------- each segment reads back ----------

  lemma {:induction false} DqtReads(tq: Byte, q: Block, wide: bool, m: map<nat, Block>)
    requires tq < 16 && forall k :: 0 <= k < 64 ==> 0 <= q[k] < if wide then 0x10000 else 256
    ensures ReadDqt(DqtPayload(tq, q, wide), m) == Some(m[tq as nat := q])
  {
    var s := DqtPayload(tq, q, wide);
    ZigzagRoundTrip(q);
    ZigzagRange(q, if wide then 0x10000 else 256);
    if wide {
      assert s[1..129] == Packed(Zigzag(q)) && s[129..] == [];
      WordsPacked(Zigzag(q));
    } else {
      assert s[1..65] == Zigzag(q) && s[65..] == [];
    }
  }

  lemma {:induction false} DhtReads(tcth: Byte, t: Table, m: map<nat, Table>)
    requires TableOk((tcth, t))
    ensures ReadDht(DhtPayload(tcth, t), m) == Some(m[tcth as nat := t])
  {
    var s, n := DhtPayload(tcth, t), |t.vals|;
    assert s[1..17] == t.bits && s[17..17 + n] == t.vals && s[17 + n..] == [];
  }

  lemma {:induction false} SofCompAt(comps: seq<FrameComp>, i: nat)
    requires i < |comps| && forall k :: k in comps ==> k.h < 16 && k.v < 16
    ensures var s := SofComps(comps); s[3 * i] == comps[i].id && s[3 * i + 1] == 16 * comps[i].h + comps[i].v && s[3 * i + 2] == comps[i].tq
  {
    if i < |comps| - 1 { SofCompAt(comps[..|comps| - 1], i); }
  }

  lemma {:induction false} SofReads(f: Frame)
    requires FrameOk(f)
    ensures ReadFrame(f.sof, SofPayload(f)) == Some(f)
  {
    var s := SofPayload(f);
    var r := ReadFrame(f.sof, s).value;
    forall i | 0 <= i < |f.comps| ensures r.comps[i] == f.comps[i] {
      SofCompAt(f.comps, i);
      assert f.comps[i] in f.comps;
      assert s[6 + 3 * i] == SofComps(f.comps)[3 * i] && s[7 + 3 * i] == SofComps(f.comps)[3 * i + 1]
        && s[8 + 3 * i] == SofComps(f.comps)[3 * i + 2];
    }
    assert r.comps == f.comps;
  }

  // ---------- the header a writer makes ----------

  // seg(0xE0 + n, ...), and what the caller adds.
  function AppParts(apps: seq<(Byte, seq<Byte>)>): (parts: seq<Part>)
    requires forall a :: a in apps ==> (0xE0 <= a.0 <= 0xEF || a.0 == 0xFE) && |a.1| < 0xFFFE
  {
    if apps == [] then []
    else AppParts(apps[..|apps| - 1]) + [Segment(apps[|apps| - 1].0, apps[|apps| - 1].1)]
  }

  function DqtParts(qtabs: seq<(Byte, Block)>, wide: bool): (parts: seq<Part>)
    requires forall q :: q in qtabs ==> q.0 < 16 && forall k :: 0 <= k < 64 ==> 0 <= q.1[k] < if wide then 0x10000 else 256
  {
    if qtabs == [] then []
    else
      var q := qtabs[|qtabs| - 1];
      DqtParts(qtabs[..|qtabs| - 1], wide) + [Segment(0xDB, DqtPayload(q.0, q.1, wide))]
  }

  function DhtParts(huff: seq<(Byte, Table)>): (parts: seq<Part>)
    requires forall t :: t in huff ==> TableOk(t)
  {
    if huff == [] then []
    else
      var t := huff[|huff| - 1];
      DhtParts(huff[..|huff| - 1]) + [Segment(0xC4, DhtPayload(t.0, t.1))]
  }

  function DriParts(restart: nat): (parts: seq<Part>)
    requires restart < 0x10000
  {
    if restart == 0 then [] else [Segment(0xDD, [restart / 256, restart % 256])]
  }

  function HeaderParts(x: Request): seq<Part>
    requires x.Valid()
  {
    AppParts(x.apps) + (DqtParts(x.qtabs, x.wide) + ([Segment(x.frame.sof, SofPayload(x.frame))]
    + (DhtParts(x.huff) + DriParts(x.restart))))
  }

  // The tables of a list of pairs, later ones on top.
  function Keyed<T>(pairs: seq<(Byte, T)>): map<nat, T> {
    if pairs == [] then map[] else Keyed(pairs[..|pairs| - 1])[pairs[|pairs| - 1].0 as nat := pairs[|pairs| - 1].1]
  }

  lemma {:induction false} OnePart(h: Header, p: Part)
    requires !p.ScanPart?
    ensures ReadSegments(h, [p]) == ReadSegment(h, p.marker, p.payload)
  {
    assert [p][1..] == [];
  }

  lemma {:induction false} AppsRead(apps: seq<(Byte, seq<Byte>)>, h: Header)
    requires forall a :: a in apps ==> (0xE0 <= a.0 <= 0xEF || a.0 == 0xFE) && |a.1| < 0xFFFE
    ensures ReadSegments(h, AppParts(apps)) == Some(h)
  {
    if apps != [] {
      var n := |apps| - 1;
      AppsRead(apps[..n], h);
      var p: Part := Segment(apps[n].0, apps[n].1);
      ReadThenRead(h, AppParts(apps[..n]), [p]);
      OnePart(h, p);
    }
  }

  lemma {:induction false} DqtsRead(qtabs: seq<(Byte, Block)>, wide: bool, h: Header)
    requires forall q :: q in qtabs ==> q.0 < 16 && forall k :: 0 <= k < 64 ==> 0 <= q.1[k] < if wide then 0x10000 else 256
    requires h.qtabs == map[]
    ensures ReadSegments(h, DqtParts(qtabs, wide)) == Some(h.(qtabs := Keyed(qtabs)))
  {
    if qtabs != [] {
      var n := |qtabs| - 1;
      var q := qtabs[n];
      DqtsRead(qtabs[..n], wide, h);
      var p: Part := Segment(0xDB, DqtPayload(q.0, q.1, wide));
      var h' := h.(qtabs := Keyed(qtabs[..n]));
      ReadThenRead(h, DqtParts(qtabs[..n], wide), [p]);
      OnePart(h', p);
      DqtReads(q.0, q.1, wide, h'.qtabs);
    }
  }

  lemma {:induction false} DhtsRead(huff: seq<(Byte, Table)>, h: Header)
    requires (forall t :: t in huff ==> TableOk(t)) && h.huff == map[]
    ensures ReadSegments(h, DhtParts(huff)) == Some(h.(huff := Keyed(huff)))
  {
    if huff != [] {
      var n := |huff| - 1;
      var t := huff[n];
      DhtsRead(huff[..n], h);
      var p: Part := Segment(0xC4, DhtPayload(t.0, t.1));
      var h' := h.(huff := Keyed(huff[..n]));
      ReadThenRead(h, DhtParts(huff[..n]), [p]);
      OnePart(h', p);
      DhtReads(t.0, t.1, h'.huff);
    }
  }

  // What the header says.
  function Told(x: Request): Header { Header(Keyed(x.qtabs), Some(x.frame), Keyed(x.huff), x.restart) }

  // From the frame on.
  lemma {:induction false} FrameOnReads(x: Request, h: Header)
    requires x.Valid() && h == NO_HEADER.(qtabs := Keyed(x.qtabs))
    ensures ReadSegments(h, [Segment(x.frame.sof, SofPayload(x.frame))] + (DhtParts(x.huff) + DriParts(x.restart))) == Some(Told(x))
  {
    var sof: Part := Segment(x.frame.sof, SofPayload(x.frame));
    var h2 := h.(frame := Some(x.frame));
    OnePart(h, sof);
    SofReads(x.frame);
    ReadThenRead(h, [sof], DhtParts(x.huff) + DriParts(x.restart));
    DhtsRead(x.huff, h2);
    ReadThenRead(h2, DhtParts(x.huff), DriParts(x.restart));
    DriReads(x.restart, h2.(huff := Keyed(x.huff)));
  }

  // Main: the decoder reads back from the header segments everything the writer was told.
  lemma {:induction false} HeaderReadsBack(x: Request)
    requires x.Valid()
    ensures ReadSegments(NO_HEADER, HeaderParts(x)) == Some(Told(x))
  {
    var sof: Part := Segment(x.frame.sof, SofPayload(x.frame));
    var rest := [sof] + (DhtParts(x.huff) + DriParts(x.restart));
    forall q | q in x.qtabs ensures q.0 < 16 && forall k :: 0 <= k < 64 ==> 0 <= q.1[k] < if x.wide then 0x10000 else 256 {
      assert x.QtabOk(q);
    }
    AppsRead(x.apps, NO_HEADER);
    ReadThenRead(NO_HEADER, AppParts(x.apps), DqtParts(x.qtabs, x.wide) + rest);
    DqtsRead(x.qtabs, x.wide, NO_HEADER);
    ReadThenRead(NO_HEADER, DqtParts(x.qtabs, x.wide), rest);
    FrameOnReads(x, NO_HEADER.(qtabs := Keyed(x.qtabs)));
  }

  lemma {:induction false} DriReads(restart: nat, h: Header)
    requires restart < 0x10000 && h.restart == 0
    ensures ReadSegments(h, DriParts(restart)) == Some(h.(restart := restart))
  {
    if restart != 0 { OnePart(h, DriParts(restart)[0]); }
  }

  // ---------- the writer ----------

  method WriteApps(apps: seq<(Byte, seq<Byte>)>) returns (out: seq<Byte>)
    requires forall a :: a in apps ==> (0xE0 <= a.0 <= 0xEF || a.0 == 0xFE) && |a.1| < 0xFFFE
    ensures out == PartsBytes(AppParts(apps))
  {
    out := [];
    for i := 0 to |apps|
      invariant out == PartsBytes(AppParts(apps[..i]))
    {
      assert apps[..i + 1][..i] == apps[..i] && apps[i] in apps;
      PartsAppend(AppParts(apps[..i]), Segment(apps[i].0, apps[i].1), Seg(apps[i].0, apps[i].1));
      out := out + Seg(apps[i].0, apps[i].1);
    }
    assert apps[..|apps|] == apps;
  }

  method WriteDqts(qtabs: seq<(Byte, Block)>, wide: bool) returns (out: seq<Byte>)
    requires forall q :: q in qtabs ==> q.0 < 16 && forall k :: 0 <= k < 64 ==> 0 <= q.1[k] < if wide then 0x10000 else 256
    ensures out == PartsBytes(DqtParts(qtabs, wide))
  {
    out := [];
    for i := 0 to |qtabs|
      invariant out == PartsBytes(DqtParts(qtabs[..i], wide))
    {
      assert qtabs[..i + 1][..i] == qtabs[..i] && qtabs[i] in qtabs;
      var s := DqtPayload(qtabs[i].0, qtabs[i].1, wide);
      PartsAppend(DqtParts(qtabs[..i], wide), Segment(0xDB, s), Seg(0xDB, s));
      out := out + Seg(0xDB, s);
    }
    assert qtabs[..|qtabs|] == qtabs;
  }

  // The frame header, component by component.
  method WriteFrame(f: Frame) returns (s: seq<Byte>)
    requires FrameOk(f)
    ensures s == SofPayload(f)
  {
    s := [f.precision, f.height / 256, f.height % 256, f.width / 256, f.width % 256, |f.comps|];
    ghost var start := s;
    for i := 0 to |f.comps|
      invariant s == start + SofComps(f.comps[..i])
    {
      assert f.comps[..i + 1][..i] == f.comps[..i] && f.comps[i] in f.comps;
      ConcatAssoc(start, SofComps(f.comps[..i]), [f.comps[i].id, 16 * f.comps[i].h + f.comps[i].v, f.comps[i].tq]);
      s := s + [f.comps[i].id, 16 * f.comps[i].h + f.comps[i].v, f.comps[i].tq];
    }
    assert f.comps[..|f.comps|] == f.comps;
  }

  method WriteDhts(huff: seq<(Byte, Table)>) returns (out: seq<Byte>)
    requires forall t :: t in huff ==> TableOk(t)
    ensures out == PartsBytes(DhtParts(huff))
  {
    out := [];
    for i := 0 to |huff|
      invariant out == PartsBytes(DhtParts(huff[..i]))
    {
      assert huff[..i + 1][..i] == huff[..i] && huff[i] in huff;
      var s := DhtPayload(huff[i].0, huff[i].1);
      PartsAppend(DhtParts(huff[..i]), Segment(0xC4, s), Seg(0xC4, s));
      out := out + Seg(0xC4, s);
    }
    assert huff[..|huff|] == huff;
  }

  // Everything between SOI and the first scan.
  method WriteHeader(x: Request) returns (out: seq<Byte>)
    requires x.Valid()
    ensures out == PartsBytes(HeaderParts(x))
  {
    forall q | q in x.qtabs ensures q.0 < 16 && forall k :: 0 <= k < 64 ==> 0 <= q.1[k] < if x.wide then 0x10000 else 256 {
      assert x.QtabOk(q);
    }
    var apps := WriteApps(x.apps);
    var dqts := WriteDqts(x.qtabs, x.wide);
    var sof := WriteFrame(x.frame);
    var dhts := WriteDhts(x.huff);
    var dri: seq<Byte> := [];
    if x.restart != 0 {
      dri := Seg(0xDD, [x.restart / 256, x.restart % 256]);
    }
    out := apps + (dqts + (Seg(x.frame.sof, sof) + (dhts + dri)));
    HeaderJoins(x, dri);
  }

  lemma {:induction false} FiveParts(a: seq<Part>, b: seq<Part>, c: seq<Part>, d: seq<Part>, e: seq<Part>)
    ensures PartsBytes(a + (b + (c + (d + e)))) == PartsBytes(a) + (PartsBytes(b) + (PartsBytes(c) + (PartsBytes(d) + PartsBytes(e))))
  {
    PartsConcat(a, b + (c + (d + e)));
    PartsConcat(b, c + (d + e));
    PartsConcat(c, d + e);
    PartsConcat(d, e);
  }

  lemma {:induction false} SinglePart(p: Part, bytes: seq<Byte>)
    requires bytes == PartBytes(p)
    ensures PartsBytes([p]) == bytes
  {
    PartsAppend([], p, bytes);
    assert [] + [p] == [p] && PartsBytes([]) == [] && [] + bytes == bytes;
  }

  lemma {:induction false} HeaderJoins(x: Request, dri: seq<Byte>)
    requires x.Valid() && dri == if x.restart == 0 then [] else Seg(0xDD, [x.restart / 256, x.restart % 256])
    ensures var q := DqtParts(x.qtabs, x.wide);
            PartsBytes(HeaderParts(x)) ==
            PartsBytes(AppParts(x.apps)) + (PartsBytes(q) + (Seg(x.frame.sof, SofPayload(x.frame)) + (PartsBytes(DhtParts(x.huff)) + dri)))
  {
    var sof: Part := Segment(x.frame.sof, SofPayload(x.frame));
    SinglePart(sof, Seg(x.frame.sof, SofPayload(x.frame)));
    if x.restart != 0 { SinglePart(DriParts(x.restart)[0], dri); }
    FiveParts(AppParts(x.apps), DqtParts(x.qtabs, x.wide), [sof], DhtParts(x.huff), DriParts(x.restart));
  }
}
