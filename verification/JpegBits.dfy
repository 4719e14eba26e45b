// Bit strings, byte stuffing and restart markers: what the writer's `Bits` puts into a scan, and how a
// decoder takes it apart again (ITU-T T.81, sections B.1.1.5, F.1.2.3 and F.2.2.5).
module JpegBits {
  import opened Common

  // ---------- numbers as bit strings, most significant bit first ----------

  // The low n bits of v.
  function BitsOf(v: nat, n: nat): (s: seq<bool>)
    ensures |s| == n
  {
    if n == 0 then [] else BitsOf(v / 2, n - 1) + [v % 2 == 1]
  }

  function ValueOf(s: seq<bool>): nat {
    if s == [] then 0 else 2 * ValueOf(s[..|s| - 1]) + if s[|s| - 1] then 1 else 0
  }

  lemma {:induction false} ValueOfBits(v: nat, n: nat)
    requires v < Pow2(n)
    ensures ValueOf(BitsOf(v, n)) == v
  {
    if n > 0 {
      ValueOfBits(v / 2, n - 1);
      assert BitsOf(v, n)[..n - 1] == BitsOf(v / 2, n - 1);
    }
  }

  lemma {:induction false} BitsOfConcat(a: nat, b: nat, m: nat, n: nat)
    requires b < Pow2(n)
    ensures BitsOf(a * Pow2(n) + b, m + n) == BitsOf(a, m) + BitsOf(b, n)
    decreases n
  {
    if n == 0 {
      assert BitsOf(b, 0) == [];
    } else {
      var p := Pow2(n - 1);
      assert a * Pow2(n) + b == 2 * (a * p) + b;
      assert (a * Pow2(n) + b) / 2 == a * p + b / 2 && (a * Pow2(n) + b) % 2 == b % 2;
      BitsOfConcat(a, b / 2, m, n - 1);
      assert BitsOf(a, m) + (BitsOf(b / 2, n - 1) + [b % 2 == 1]) == (BitsOf(a, m) + BitsOf(b / 2, n - 1)) + [b % 2 == 1];
    }
  }

  // Only the low n bits matter.
  lemma {:induction false} BitsOfLow(v: nat, q: nat, r: nat, n: nat)
    requires r < Pow2(n) && v == q * Pow2(n) + r
    ensures BitsOf(v, n) == BitsOf(r, n)
  {
    BitsOfConcat(q, r, 0, n);
    assert BitsOf(q, 0) == [];
  }

  lemma {:induction false} DivMod(v: nat, p: nat) returns (q: nat, r: nat)
    requires p > 0
    ensures q == v / p && r == v % p && r < p && v == q * p + r
  {
    q, r := v / p, v % p;
  }

  lemma {:induction false} DivPow2(v: nat, n: nat) returns (q: nat, r: nat)
    ensures q == v / Pow2(n) && r == v % Pow2(n) && r < Pow2(n) && v == q * Pow2(n) + r
  {
    q, r := DivMod(v, Pow2(n));
  }

  // Dropping the bits above n changes nothing below; the m bits above n are those of the quotient.
  lemma {:induction false} BitsOfSplit(v: nat, m: nat, n: nat) returns (q: nat, r: nat)
    ensures q == v / Pow2(n) && r == v % Pow2(n) && r < Pow2(n)
    ensures BitsOf(v, m + n) == BitsOf(q, m) + BitsOf(v, n) && BitsOf(r, n) == BitsOf(v, n)
  {
    q, r := DivPow2(v, n);
    BitsOfLow(v, q, r, n);
    BitsOfConcat(q, r, m, n);
  }

  function Ones(n: nat): (s: seq<bool>)
    ensures |s| == n && forall i :: 0 <= i < n ==> s[i]
  {
    seq(n, _ => true)
  }

  lemma {:induction false} OnesAreBits(n: nat)
    ensures BitsOf(Pow2(n) - 1, n) == Ones(n)
  {
    if n > 0 {
      OnesAreBits(n - 1);
      assert (Pow2(n) - 1) / 2 == Pow2(n - 1) - 1 && (Pow2(n) - 1) % 2 == 1;
      assert Ones(n) == Ones(n - 1) + [true];
    } else {
      assert BitsOf(0, 0) == [] && Ones(0) == [];
    }
  }

  // ---------- bytes ----------

  ghost function Unpack(bytes: seq<Byte>): (s: seq<bool>)
    ensures |s| == 8 * |bytes|
  {
    if bytes == [] then [] else Unpack(bytes[..|bytes| - 1]) + BitsOf(bytes[|bytes| - 1], 8)
  }

  // A zero byte after every FF.
  function Stuff(bytes: seq<Byte>): seq<Byte> {
    if bytes == [] then []
    else Stuff(bytes[..|bytes| - 1]) + if bytes[|bytes| - 1] == 0xFF then [0xFF, 0x00] else [bytes[|bytes| - 1]]
  }

  // Restart marker number i.
  function Rst(i: nat): seq<Byte> { [0xFF, 0xD0 + i % 8] }

  // Entropy-coded data: the intervals' bytes, stuffed, with RST0, RST1, ... between them.
  function Entropy(chunks: seq<seq<Byte>>): seq<Byte>
    requires chunks != []
  {
    var n := |chunks| - 1;
    if n == 0 then Stuff(chunks[0]) else Entropy(chunks[..n]) + Rst(n - 1) + Stuff(chunks[n])
  }

  // The decoder's side: read bytes into the current interval, drop the zero after FF, start a new interval at
  // the restart marker that is due, and stop at any other marker.
  function Split(bytes: seq<Byte>, done: seq<seq<Byte>>, cur: seq<Byte>): (seq<seq<Byte>>, seq<Byte>)
    decreases |bytes|
  {
    if bytes == [] then (done + [cur], [])
    else if bytes[0] != 0xFF then Split(bytes[1..], done, cur + [bytes[0]])
    else if |bytes| >= 2 && bytes[1] == 0x00 then Split(bytes[2..], done, cur + [0xFF])
    else if |bytes| >= 2 && bytes[..2] == Rst(|done|) then Split(bytes[2..], done + [cur], [])
    else (done + [cur], bytes)
  }

  lemma {:induction false} SplitStuff(c: seq<Byte>, tail: seq<Byte>, done: seq<seq<Byte>>, cur: seq<Byte>)
    ensures Split(Stuff(c) + tail, done, cur) == Split(tail, done, cur + c)
    decreases |c|
  {
    if c == [] {
      assert Stuff(c) + tail == tail && cur + c == cur;
    } else {
      var n := |c| - 1;
      var last := if c[n] == 0xFF then [0xFF, 0x00] else [c[n]];
      assert Stuff(c) + tail == Stuff(c[..n]) + (last + tail);
      SplitStuff(c[..n], last + tail, done, cur);
      assert (last + tail)[|last|..] == tail;
      assert cur + c == (cur + c[..n]) + [c[n]];
    }
  }

  // Splitting entropy-coded data gives its intervals back, and stops at the marker that follows.
  lemma {:induction false} SplitEntropy(chunks: seq<seq<Byte>>, tail: seq<Byte>)
    requires chunks != []
    ensures Split(Entropy(chunks) + tail, [], []) == Split(tail, chunks[..|chunks| - 1], chunks[|chunks| - 1])
    decreases |chunks|
  {
    var n := |chunks| - 1;
    if n == 0 {
      SplitStuff(chunks[0], tail, [], []);
      assert [] + chunks[0] == chunks[0];
    } else {
      var rest := Rst(n - 1) + (Stuff(chunks[n]) + tail);
      assert Entropy(chunks) + tail == Entropy(chunks[..n]) + rest;
      SplitEntropy(chunks[..n], rest);
      assert chunks[..n][..n - 1] + [chunks[..n][n - 1]] == chunks[..n];
      assert rest[..2] == Rst(n - 1) && rest[2..] == Stuff(chunks[n]) + tail;
      SplitStuff(chunks[n], tail, chunks[..n], []);
      assert [] + chunks[n] == chunks[n];
    }
  }

  // ---------- the writer ----------

  // What completes a byte of n pending bits.
  lemma {:induction false} PadIs(bytes: nat, n: nat, length: nat)
    requires length == 8 * bytes + n && 0 < n < 8
    ensures Padding(length) == 8 - n
  {
  }

  // A whole number of bytes leaves nothing pending.
  lemma {:induction false} PadFills(bytes: nat, n: nat, length: nat)
    requires length == 8 * bytes + n && n < 8 && length % 8 == 0
    ensures n == 0
  {
  }

  // Bits: an accumulator of at most 7 pending bits over a byte buffer.
  class Bits {
    var out: seq<Byte>
    var acc: nat
    var n: nat
    ghost var chunks: seq<seq<Byte>>  // intervals already closed by a marker, unstuffed
    ghost var raw: seq<Byte>          // bytes of the current interval, unstuffed
    ghost var bits: seq<bool>         // every bit put since the current interval began

    ghost predicate Valid()
      reads this
    {
      n < 8 && acc < Pow2(n) && out == Entropy(chunks + [raw]) && bits == Unpack(raw) + BitsOf(acc, n)
    }

    constructor ()
      ensures Valid() && chunks == [] && raw == [] && bits == []
    {
      out, acc, n := [], 0, 0;
      chunks, raw, bits := [], [], [];
    }

    // Move the top pending byte to the buffer, with a zero after FF.
    method Emit(ghost all: seq<bool>)
      requires n >= 8 && out == Entropy(chunks + [raw]) && all == Unpack(raw) + BitsOf(acc, n)
      modifies this
      ensures n == old(n) - 8 && chunks == old(chunks)
      ensures out == Entropy(chunks + [raw]) && all == Unpack(raw) + BitsOf(acc, n)
    {
      var b := TopByte(acc, n - 8);
      TopByteOut(acc, n, raw, b, all);
      EntropyAppend(chunks, raw, b);
      Append(b);
      raw := raw + [b];
      n := n - 8;
    }

    method Append(b: Byte)
      modifies this`out
      ensures out == old(out) + if b == 0xFF then [0xFF, 0x00] else [b]
    {
      out := out + [b];
      if b == 0xFF {
        out := out + [0x00];
      }
    }

    // Emit while a whole byte is pending.
    method Drain(ghost all: seq<bool>)
      requires out == Entropy(chunks + [raw]) && all == Unpack(raw) + BitsOf(acc, n)
      modifies this
      ensures chunks == old(chunks) && n < 8
      ensures out == Entropy(chunks + [raw]) && all == Unpack(raw) + BitsOf(acc, n)
    {
      while n >= 8
        invariant out == Entropy(chunks + [raw]) && chunks == old(chunks) && all == Unpack(raw) + BitsOf(acc, n)
        decreases n
      {
        Emit(all);
      }
    }

    // acc = (acc << ln) | (code & ((1 << ln) - 1))
    method Take(code: nat, ln: nat)
      modifies this`acc, this`n
      ensures BitsOf(acc, n) == BitsOf(old(acc), old(n)) + BitsOf(code, ln)
    {
      ghost var _, r := BitsOfSplit(code, 0, ln);
      var masked := code % Pow2(ln);
      BitsOfConcat(acc, masked, n, ln);
      acc := acc * Pow2(ln) + masked;
      n := n + ln;
    }

    // acc &= (1 << n) - 1
    method Mask()
      modifies this`acc
      ensures acc < Pow2(n) && BitsOf(acc, n) == BitsOf(old(acc), n)
    {
      ghost var _, low := BitsOfSplit(acc, 0, n);
      acc := acc % Pow2(n);
    }

    // The low ln bits of code, most significant first.
    method Put(code: nat, ln: nat)
      requires Valid()
      modifies this
      ensures Valid() && chunks == old(chunks) && bits == old(bits) + BitsOf(code, ln)
    {
      ghost var all := bits + BitsOf(code, ln);
      assert all == Unpack(raw) + (BitsOf(acc, n) + BitsOf(code, ln));
      Take(code, ln);
      Drain(all);
      Mask();
      bits := all;
    }

    // Pad the last byte with ones.
    method Flush()
      requires Valid()
      modifies this
      ensures Valid() && n == 0 && chunks == old(chunks)
      ensures bits == Unpack(raw) == old(bits) + Ones(Padding(|old(bits)|))
    {
      assert |bits| == 8 * |raw| + n;
      if n != 0 {
        var pad := 8 - n;
        PadIs(|raw|, n, |bits|);
        OnesAreBits(pad);
        Put(Pow2(pad) - 1, pad);
        PadFills(|raw|, n, |bits|);
      } else {
        assert bits + Ones(0) == bits;
      }
      assert BitsOf(acc, 0) == [];
      assert bits == Unpack(raw);
    }

    // Close the interval with a restart marker numbered rst mod 8.
    method Restart(rst: nat)
      requires Valid() && n == 0 && rst == |chunks|
      modifies this
      ensures Valid() && chunks == old(chunks) + [old(raw)] && raw == [] && bits == [] && n == 0
    {
      out := out + [0xFF, 0xD0 + rst % 8];
      chunks, raw, bits := chunks + [raw], [], [];
      assert (chunks + [raw])[..rst + 1] == chunks;
      assert Stuff(raw) == [];
    }
  }

  // Bits of padding that complete the last byte.
  function Padding(bits: nat): (p: nat)
    ensures p < 8 && (bits + p) % 8 == 0
  {
    (8 - bits % 8) % 8
  }

  // (acc >> below) & 0xFF
  function TopByte(acc: nat, below: nat): Byte {
    acc / Pow2(below) % 256
  }

  lemma {:induction false} TopByteOut(acc: nat, n: nat, raw: seq<Byte>, b: Byte, all: seq<bool>)
    requires n >= 8 && b == TopByte(acc, n - 8) && all == Unpack(raw) + BitsOf(acc, n)
    ensures all == Unpack(raw + [b]) + BitsOf(acc, n - 8)
  {
    TopByteBits(acc, n - 8);
    AppendByte(raw, b);
    ConcatAssoc(Unpack(raw), BitsOf(b, 8), BitsOf(acc, n - 8));
  }

  lemma {:induction false} TopByteBits(acc: nat, below: nat)
    ensures BitsOf(acc, 8 + below) == BitsOf(TopByte(acc, below), 8) + BitsOf(acc, below)
  {
    var q, _ := BitsOfSplit(acc, 8, below);
    LowByte(q);
  }

  lemma {:induction false} ConcatAssoc<T>(a: seq<T>, b: seq<T>, c: seq<T>)
    ensures a + (b + c) == (a + b) + c
  {
  }

  lemma {:induction false} AppendByte(raw: seq<Byte>, b: Byte)
    ensures Unpack(raw + [b]) == Unpack(raw) + BitsOf(b, 8)
  {
    assert (raw + [b])[..|raw|] == raw;
  }

  lemma {:induction false} LowByte(x: nat)
    ensures BitsOf(x % 256, 8) == BitsOf(x, 8)
  {
    assert Pow2(8) == 256 by {
      assert Pow2(2) == 4;
      assert Pow2(4) == 16;
      assert Pow2(6) == 64;
    }
    var _, _ := BitsOfSplit(x, 0, 8);
  }

  lemma {:induction false} EntropyAppend(chunks: seq<seq<Byte>>, raw: seq<Byte>, b: Byte)
    ensures Entropy(chunks + [raw + [b]]) ==
            Entropy(chunks + [raw]) + if b == 0xFF then [0xFF, 0x00] else [b]
  {
    var n := |chunks|;
    var last := if b == 0xFF then [0xFF, 0x00] else [b];
    assert (raw + [b])[..|raw|] == raw;
    assert Stuff(raw + [b]) == Stuff(raw) + last;
    if n > 0 {
      assert (chunks + [raw + [b]])[..n] == chunks == (chunks + [raw])[..n];
    }
  }

  // A marker a decoder does not take for entropy data.
  ghost predicate StartsMarker(bytes: seq<Byte>) {
    |bytes| >= 2 && bytes[0] == 0xFF && bytes[1] != 0x00 && !(0xD0 <= bytes[1] <= 0xD7)
  }

  lemma {:induction false} EntropyRoundTrip(chunks: seq<seq<Byte>>, tail: seq<Byte>)
    requires chunks != [] && (tail == [] || StartsMarker(tail))
    ensures Split(Entropy(chunks) + tail, [], []) == (chunks, tail)
  {
    SplitEntropy(chunks, tail);
    var n := |chunks| - 1;
    assert chunks[..n] + [chunks[n]] == chunks;
  }
}
