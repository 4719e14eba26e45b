// Signed values as a category and that many extra bits (ITU-T T.81, sections F.1.2.1, F.2.2.1 and H.1.2.2).
module JpegValues {
  import opened Common
  import opened JpegBits
  import opened JpegHuffman

  function Abs(d: int): nat { if d < 0 then -d else d }

  // Python's int.bit_length.
  function BitLength(n: nat): nat { if n == 0 then 0 else 1 + BitLength(n / 2) }

  lemma {:induction false} BitLengthBounds(n: nat)
    requires n > 0
    ensures BitLength(n) >= 1 && Pow2(BitLength(n) - 1) <= n < Pow2(BitLength(n))
  {
    if n > 1 {
      BitLengthBounds(n / 2);
      assert BitLength(n) == 1 + BitLength(n / 2);
    }
  }

  // A value has at most c bits exactly when it is below 2^c.
  lemma {:induction false} BitLengthAtMost(n: nat, c: nat)
    ensures BitLength(n) <= c <==> n < Pow2(c)
  {
    if n > 0 {
      BitLengthBounds(n);
      if BitLength(n) <= c {
        Pow2Mono(BitLength(n), c);
      } else {
        Pow2Mono(c, BitLength(n) - 1);
      }
    }
  }

  function Category(d: int): nat { BitLength(Abs(d)) }

  // The number whose low Category(d) bits follow the category.
  function Magnitude(d: int): (m: nat)
    requires d != 0
    ensures m < Pow2(Category(d))
  {
    BitLengthBounds(Abs(d));
    if d > 0 then d else d + Pow2(Category(d)) - 1
  }

  function ExtraBits(d: int): (s: seq<bool>)
    ensures |s| == Category(d)
  {
    if d == 0 then [] else BitsOf(Magnitude(d), Category(d))
  }

  // RECEIVE: the next n bits as a number.
  function Receive(s: seq<bool>, n: nat): (r: Option<(nat, seq<bool>)>)
    ensures r.Some? ==> |r.value.1| <= |s|
  {
    if |s| < n then None else Some((ValueOf(s[..n]), s[n..]))
  }

  // EXTEND: figure F.12.
  function Extend(v: nat, t: nat): int {
    if t > 0 && v < Pow2(t - 1) then v - Pow2(t) + 1 else v
  }

  function ReceiveExtend(s: seq<bool>, t: nat): (r: Option<(int, seq<bool>)>)
    ensures r.Some? ==> |r.value.1| <= |s|
  {
    match Receive(s, t)
    case None => None
    case Some((v, rest)) => Some((Extend(v, t), rest))
  }

  lemma {:induction false} ExtendMagnitude(d: int)
    requires d != 0
    ensures Extend(Magnitude(d), Category(d)) == d
  {
    BitLengthBounds(Abs(d));
  }

  // The extra bits give the value back, sign included.
  lemma {:induction false} ValueRoundTrip(d: int, rest: seq<bool>)
    ensures ReceiveExtend(ExtraBits(d) + rest, Category(d)) == Some((d, rest))
  {
    var s := ExtraBits(d) + rest;
    assert s[..Category(d)] == ExtraBits(d) && s[Category(d)..] == rest;
    if d == 0 {
      assert ValueOf([]) == 0;
    } else {
      ValueOfBits(Magnitude(d), Category(d));
      ExtendMagnitude(d);
    }
  }

  // ---------- restart intervals ----------

  // Units between restarts: `every` units an interval, the last one shorter; one interval when every is zero.
  function Intervals<T>(units: seq<T>, every: nat): (r: seq<seq<T>>)
    ensures |r| >= 1
    decreases |units|
  {
    if every == 0 || |units| <= every then [units] else [units[..every]] + Intervals(units[every..], every)
  }

  function Concat<T>(parts: seq<seq<T>>): seq<T> {
    if parts == [] then [] else Concat(parts[..|parts| - 1]) + parts[|parts| - 1]
  }

  lemma {:induction false} ConcatAppend<T>(a: seq<seq<T>>, b: seq<seq<T>>)
    ensures Concat(a + b) == Concat(a) + Concat(b)
    decreases |b|
  {
    if b == [] {
      assert a + b == a;
    } else {
      var n := |b| - 1;
      assert (a + b)[..|a| + n] == a + b[..n];
      ConcatAppend(a, b[..n]);
    }
  }

  // The intervals are the units, in order, each once.
  lemma {:induction false} IntervalsConcat<T>(units: seq<T>, every: nat)
    ensures Concat(Intervals(units, every)) == units
    decreases |units|
  {
    if every == 0 || |units| <= every {
      assert Concat([units]) == Concat([units][..0]) + units;
    } else {
      IntervalsConcat(units[every..], every);
      ConcatAppend([units[..every]], Intervals(units[every..], every));
      assert Concat([units[..every]]) == Concat([units[..every]][..0]) + units[..every];
    }
  }

  // A restart is due exactly when a whole interval has been written since the last one.
  lemma {:induction false} RestartDue(from: nat, q: nat, every: nat, n: nat)
    requires every > 0 && from == q * every && from < n <= from + every
    ensures n % every == 0 <==> n == from + every
  {
    if n == from + every {
      assert n == (q + 1) * every;
      MultipleOf(q + 1, every);
    } else {
      RemainderOf(q, n - from, every);
    }
  }

  lemma {:induction false} MultipleOf(q: nat, m: nat)
    requires m > 0
    ensures q * m % m == 0
  {
    RemainderOf(q, 0, m);
  }

  lemma {:induction false} TimesMono(a: nat, b: nat, w: nat)
    requires a <= b
    ensures a * w <= b * w && a * w == w * a && b * w == w * b
    ensures a >= 1 ==> (a - 1) * w + w == a * w
  {
  }

  lemma {:induction false} RemainderOf(q: nat, r: nat, m: nat)
    requires r < m
    ensures (q * m + r) % m == r
  {
    var x := q * m + r;
    var d := x / m;
    assert x == d * m + x % m;
    if d < q {
      TimesMono(d + 1, q, m);
    } else if d > q {
      TimesMono(q + 1, d, m);
    }
  }

  // What stands at k, when what follows k is known.
  lemma {:induction false} TailStep<T>(s: seq<T>, k: nat, x: T, rest: seq<T>)
    requires k <= |s| && s[k..] == [x] + rest
    ensures k < |s| && s[k] == x && s[k + 1..] == rest && s[..k + 1] == s[..k] + [x]
  {
    assert s[k] == s[k..][0] && s[k + 1..] == s[k..][1..];
  }

  // An interval's bits, its last byte filled with ones.
  function Padded(bits: seq<bool>): seq<bool> { bits + Ones(Padding(|bits|)) }
}
