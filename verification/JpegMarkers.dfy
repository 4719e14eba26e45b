// Marker segments, and finding the scans of a file (ITU-T T.81, section B.1.1).
module JpegMarkers {
  import opened Common
  import opened JpegBits
  import opened JpegHuffman

  // What follows SOI, up to EOI: a marker segment, or an SOS segment with its entropy-coded data.
  datatype AnyPart =
    | Segment(marker: Byte, payload: seq<Byte>)
    | ScanPart(header: seq<Byte>, chunks: seq<seq<Byte>>)
  {
    predicate Valid() {
      match this
      case Segment(m, payload) => m != 0x00 && m != 0xFF && !(0xD0 <= m <= 0xD7) && m != 0xD9 && m != 0xDA && |payload| < 0xFFFE
      case ScanPart(header, chunks) => |header| < 0xFFFE && chunks != []
    }
  }

  type Part = p: AnyPart | p.Valid() witness Segment(0xE0, [])

  // A marker, a two-byte big-endian length that counts itself, the payload.
  function Seg(marker: Byte, payload: seq<Byte>): seq<Byte>
    requires |payload| < 0xFFFE
  {
    [0xFF, marker, (|payload| + 2) / 256, (|payload| + 2) % 256] + payload
  }

  ghost function PartSize(p: Part): (n: nat)
    ensures n >= 4
  {
    match p
    case Segment(_, payload) => 4 + |payload|
    case ScanPart(header, chunks) => 4 + |header| + |Entropy(chunks)|
  }

  ghost function PartBytes(p: Part): (s: seq<Byte>)
    ensures |s| == PartSize(p) && StartsMarker(s)
  {
    match p
    case Segment(m, payload) => Seg(m, payload)
    case ScanPart(header, chunks) => Seg(0xDA, header) + Entropy(chunks)
  }

  function Join<T>(blobs: seq<seq<T>>): seq<T> {
    if blobs == [] then [] else blobs[0] + Join(blobs[1..])
  }

  lemma {:induction false} JoinConcat<T>(a: seq<seq<T>>, b: seq<seq<T>>)
    ensures Join(a + b) == Join(a) + Join(b)
  {
    if a == [] {
      assert a + b == b;
    } else {
      var ab := a + b;
      JoinConcat(a[1..], b);
      assert ab[0] == a[0] && ab[1..] == a[1..] + b;
      ConcatAssoc(a[0], Join(a[1..]), Join(b));
    }
  }

  ghost function Blobs(parts: seq<Part>): (r: seq<seq<Byte>>)
    ensures |r| == |parts|
  {
    seq(|parts|, k requires 0 <= k < |parts| => PartBytes(parts[k]))
  }

  ghost function PartsBytes(parts: seq<Part>): seq<Byte> { Join(Blobs(parts)) }

  lemma {:induction false} PartsConcat(a: seq<Part>, b: seq<Part>)
    ensures PartsBytes(a + b) == PartsBytes(a) + PartsBytes(b)
  {
    assert Blobs(a + b) == Blobs(a) + Blobs(b);
    JoinConcat(Blobs(a), Blobs(b));
  }

  lemma {:induction false} FirstPart(parts: seq<Part>, head: seq<Byte>)
    requires parts != [] && head == PartBytes(parts[0])
    ensures PartsBytes(parts) == head + PartsBytes(parts[1..])
  {
    assert Blobs(parts)[0] == head && Blobs(parts)[1..] == Blobs(parts[1..]);
  }

  lemma {:induction false} PartsAppend(parts: seq<Part>, p: Part, bytes: seq<Byte>)
    requires bytes == PartBytes(p)
    ensures PartsBytes(parts + [p]) == PartsBytes(parts) + bytes
  {
    PartsConcat(parts, [p]);
    FirstPart([p], bytes);
    assert PartsBytes([]) == [] && bytes + [] == bytes;
  }

  const EOI: seq<Byte> := [0xFF, 0xD9]

  ghost function FileBytes(parts: seq<Part>): seq<Byte>
  {
    [0xFF, 0xD8] + (PartsBytes(parts) + EOI)
  }

  // Where the scans of the parts start, the first part starting at i.
  ghost function SosAt(parts: seq<Part>, i: nat): seq<nat>
  {
    if parts == [] then []
    else SosHere(parts[0], i) + SosAt(parts[1..], i + PartSize(parts[0]))
  }

  // ---------- the search ----------

  // The end of entropy-coded data: FF, then neither zero nor RSTm.
  predicate MarkerAt(b: seq<Byte>, i: nat)
    requires i + 1 < |b|
  {
    b[i] == 0xFF && b[i + 1] != 0x00 && !(0xD0 <= b[i + 1] <= 0xD7)
  }

  function Skip(b: seq<Byte>, i: nat): (j: nat)
    ensures i <= j
    decreases |b| - i
  {
    if i + 1 < |b| && !MarkerAt(b, i) then Skip(b, i + 1) else i
  }

  function BigEndian(hi: Byte, lo: Byte): nat {
    var h: int := hi;
    256 * h + lo
  }

  // What the search at i adds to what it has found; None where reading a length past the end raises.
  function Walk(b: seq<Byte>, i: nat, pos: seq<nat>): Option<seq<nat>>
    decreases |b| - i
  {
    if i + 1 >= |b| then Some(pos)
    else if b[i] != 0xFF then Walk(b, i + 1, pos)
    else if b[i + 1] == 0x00 || b[i + 1] == 0xFF || 0xD0 <= b[i + 1] <= 0xD7 then Walk(b, i + 2, pos)
    else if b[i + 1] == 0xD9 then Some(pos)
    else if i + 4 > |b| then None
    else
      var next := i + 2 + BigEndian(b[i + 2], b[i + 3]);
      if b[i + 1] == 0xDA then Walk(b, Skip(b, next), pos + [i]) else Walk(b, next, pos)
  }

  // The script's scan_offsets.
  method ScanOffsets(b: seq<Byte>) returns (r: Option<seq<nat>>)
    ensures r == Walk(b, 2, [])
  {
    var pos: seq<nat>, i: nat := [], 2;
    while i + 1 < |b|
      invariant i >= 2 && Walk(b, i, pos) == Walk(b, 2, [])
      decreases |b| - i
    {
      if b[i] != 0xFF {
        i := i + 1;
        continue;
      }
      var m := b[i + 1];
      if m == 0x00 || m == 0xFF || 0xD0 <= m <= 0xD7 {
        i := i + 2;
        continue;
      }
      if m == 0xD9 {
        break;
      }
      if i + 4 > |b| {
        return None;
      }
      var ln := BigEndian(b[i + 2], b[i + 3]);
      if m == 0xDA {
        pos := pos + [i];
      }
      i := i + 2 + ln;
      if m == 0xDA {
        ghost var from := i;
        while i + 1 < |b| && !MarkerAt(b, i)
          invariant from <= i && Skip(b, i) == Skip(b, from)
          decreases |b| - i
        {
          i := i + 1;
        }
      }
    }
    r := Some(pos);
  }

  // ---------- entropy-coded data holds no marker but RSTm ----------

  // Every FF is followed by a zero or by RSTm's second byte.
  ghost predicate Clean(s: seq<Byte>) {
    forall j :: 0 <= j < |s| ==> CleanAt(s, j)
  }

  ghost predicate CleanAt(s: seq<Byte>, j: nat)
    requires j < |s|
  {
    s[j] == 0xFF ==> j + 1 < |s| && (s[j + 1] == 0x00 || 0xD0 <= s[j + 1] <= 0xD7)
  }

  lemma {:induction false} CleanConcat(a: seq<Byte>, b: seq<Byte>)
    requires Clean(a) && Clean(b)
    ensures Clean(a + b)
  {
    forall j | 0 <= j < |a + b| ensures CleanAt(a + b, j) {
      if j < |a| {
        assert CleanAt(a, j);
      } else {
        assert CleanAt(b, j - |a|);
      }
    }
  }

  lemma {:induction false} StuffClean(c: seq<Byte>)
    ensures Clean(Stuff(c))
  {
    if c != [] {
      var n := |c| - 1;
      StuffClean(c[..n]);
      CleanConcat(Stuff(c[..n]), if c[n] == 0xFF then [0xFF, 0x00] else [c[n]]);
    }
  }

  lemma {:induction false} EntropyClean(chunks: seq<seq<Byte>>)
    requires chunks != []
    ensures Clean(Entropy(chunks))
  {
    var n := |chunks| - 1;
    StuffClean(chunks[n]);
    if n > 0 {
      EntropyClean(chunks[..n]);
      CleanConcat(Entropy(chunks[..n]), Rst(n - 1));
      CleanConcat(Entropy(chunks[..n]) + Rst(n - 1), Stuff(chunks[n]));
    }
  }

  // Skipping clean data stops exactly where it ends.
  lemma {:induction false} SkipClean(b: seq<Byte>, i: nat, s: seq<Byte>, k: nat)
    requires Clean(s) && k <= |s| && i + |s| <= |b| && b[i..i + |s|] == s && StartsMarker(b[i + |s|..])
    ensures Skip(b, i + k) == i + |s|
    decreases |s| - k
  {
    if k < |s| {
      assert CleanAt(s, k);
      assert b[i + k] == s[k];
      if s[k] == 0xFF {
        assert b[i + k + 1] == s[k + 1];
      }
      SkipClean(b, i, s, k + 1);
    } else {
      var tail := b[i + |s|..];
      assert tail[0] == b[i + |s|] && tail[1] == b[i + |s| + 1];
    }
  }

  // ---------- the search finds exactly the scans ----------

  lemma {:induction false} RestStartsMarker(parts: seq<Part>)
    ensures StartsMarker(PartsBytes(parts) + EOI)
  {
    if parts != [] {
      var head := PartBytes(parts[0]);
      var s := PartsBytes(parts) + EOI;
      FirstPart(parts, head);
      assert s[0] == head[0] && s[1] == head[1];
    }
  }

  lemma {:induction false} SegmentAt(b: seq<Byte>, i: nat, marker: Byte, payload: seq<Byte>, tail: seq<Byte>)
    requires |payload| < 0xFFFE && i <= |b| && b[i..] == Seg(marker, payload) + tail
    ensures i + 4 <= |b| && b[i] == 0xFF && b[i + 1] == marker
    ensures BigEndian(b[i + 2], b[i + 3]) == |payload| + 2
    ensures i + 4 + |payload| <= |b| && b[i + 4 + |payload|..] == tail
  {
    var s := Seg(marker, payload);
    assert forall k :: 0 <= k < 4 ==> b[i + k] == b[i..][k] == s[k];
    assert b[i..][|s|..] == tail;
  }

  lemma {:induction false} WalkParts(b: seq<Byte>, i: nat, parts: seq<Part>, pos: seq<nat>)
    requires i <= |b| && b[i..] == PartsBytes(parts) + EOI
    ensures Walk(b, i, pos) == Some(pos + SosAt(parts, i))
    decreases |parts|
  {
    if parts == [] {
      assert b[i..][0] == 0xFF && b[i..][1] == 0xD9;
      assert pos + [] == pos;
    } else {
      var rest := PartsBytes(parts[1..]) + EOI;
      var head := PartBytes(parts[0]);
      FirstPart(parts, head);
      ConcatAssoc(head, PartsBytes(parts[1..]), EOI);
      RestStartsMarker(parts[1..]);
      PartStep(b, i, parts[0], rest, pos);
      WalkParts(b, i + |head|, parts[1..], pos + SosHere(parts[0], i));
      SosStep(parts, i, |head|, pos);
    }
  }

  // The offset of a part, if it is a scan.
  ghost function SosHere(p: Part, i: nat): seq<nat> { if p.ScanPart? then [i] else [] }

  lemma {:induction false} SosStep(parts: seq<Part>, i: nat, length: nat, pos: seq<nat>)
    requires parts != [] && length == PartSize(parts[0])
    ensures (pos + SosHere(parts[0], i)) + SosAt(parts[1..], i + length) == pos + SosAt(parts, i)
  {
    ConcatAssoc(pos, SosHere(parts[0], i), SosAt(parts[1..], i + length));
  }

  lemma {:induction false} PartStep(b: seq<Byte>, i: nat, p: Part, rest: seq<Byte>, pos: seq<nat>)
    requires i <= |b| && b[i..] == PartBytes(p) + rest && StartsMarker(rest)
    ensures i + |PartBytes(p)| <= |b| && b[i + |PartBytes(p)|..] == rest
    ensures Walk(b, i, pos) == Walk(b, i + |PartBytes(p)|, pos + SosHere(p, i))
  {
    var bytes := PartBytes(p);
    match p
    case Segment(m, payload) =>
      SegmentStep(b, i, m, payload, bytes, rest, pos);
      assert pos + [] == pos;
    case ScanPart(header, chunks) =>
      ScanStep(b, i, header, chunks, bytes, rest, pos);
  }

  lemma {:induction false} SegmentStep(b: seq<Byte>, i: nat, marker: Byte, payload: seq<Byte>, bytes: seq<Byte>, rest: seq<Byte>, pos: seq<nat>)
    requires Segment(marker, payload).Valid() && bytes == Seg(marker, payload) && i <= |b| && b[i..] == bytes + rest
    ensures i + |bytes| <= |b| && b[i + |bytes|..] == rest
    ensures Walk(b, i, pos) == Walk(b, i + |bytes|, pos)
  {
    SegmentAt(b, i, marker, payload, rest);
  }

  lemma {:induction false} ScanStep(b: seq<Byte>, i: nat, header: seq<Byte>, chunks: seq<seq<Byte>>, bytes: seq<Byte>, rest: seq<Byte>, pos: seq<nat>)
    requires |header| < 0xFFFE && chunks != [] && StartsMarker(rest)
    requires bytes == Seg(0xDA, header) + Entropy(chunks) && i <= |b| && b[i..] == bytes + rest
    ensures i + |bytes| <= |b| && b[i + |bytes|..] == rest && Walk(b, i, pos) == Walk(b, i + |bytes|, pos + [i])
  {
    var data := Entropy(chunks);
    ConcatAssoc(Seg(0xDA, header), data, rest);
    SegmentAt(b, i, 0xDA, header, data + rest);
    var next := i + 4 + |header|;
    DataAt(b, next, data, rest);
    EntropyClean(chunks);
    SkipClean(b, next, data, 0);
    WalkScan(b, i, next, pos);
  }

  lemma {:induction false} DataAt(b: seq<Byte>, i: nat, data: seq<Byte>, rest: seq<Byte>)
    requires i <= |b| && b[i..] == data + rest
    ensures i + |data| <= |b| && b[i..i + |data|] == data && b[i + |data|..] == rest
  {
    assert b[i..][..|data|] == data && b[i..][|data|..] == rest;
  }

  lemma {:induction false} WalkScan(b: seq<Byte>, i: nat, next: nat, pos: seq<nat>)
    requires i + 4 <= |b| && b[i] == 0xFF && b[i + 1] == 0xDA && next == i + 2 + BigEndian(b[i + 2], b[i + 3])
    ensures Walk(b, i, pos) == Walk(b, Skip(b, next), pos + [i])
  {
  }

  // On any file closed with EOI the search returns exactly the SOS positions.
  lemma {:induction false} ScanOffsetsExact(parts: seq<Part>)
    ensures Walk(FileBytes(parts), 2, []) == Some(SosAt(parts, 2))
  {
    assert FileBytes(parts)[2..] == PartsBytes(parts) + EOI;
    WalkParts(FileBytes(parts), 2, parts, []);
    assert [] + SosAt(parts, 2) == SosAt(parts, 2);
  }
}
