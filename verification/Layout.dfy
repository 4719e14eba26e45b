// Addresses inside flat buffers: [B, T, H, D] tensors and small row-major tiles.
module Layout {
  import opened Common

  // Element (row, col) of a row-major tile `width` wide.
  function Cell(row: nat, width: nat, col: nat): nat {
    row * width + col
  }

  lemma {:induction false} CellInjective(width: nat, row: nat, col: nat, row': nat, col': nat)
    requires col < width && col' < width
    requires Cell(row, width, col) == Cell(row', width, col')
    ensures row == row' && col == col'
  {
    if row < row' {
      MulMono(row + 1, row', width);
    } else if row' < row {
      MulMono(row' + 1, row, width);
    }
  }

  lemma {:induction false} CellFits(rows: nat, width: nat, row: nat, col: nat)
    requires row < rows && col < width
    ensures Cell(row, width, col) < rows * width
  {
    MulMono(row + 1, rows, width);
  }

  // First element of row (b, t, h) of a [B, T, H, D] tensor, as the kernels form it: a head base plus a
  // position stride.
  function RowAddr(b: nat, t: nat, h: nat, tLen: nat, hLen: nat, dLen: nat): nat {
    b * tLen * (hLen * dLen) + h * dLen + t * (hLen * dLen)
  }

  // That address is the row-major index of (b, t, h).
  lemma {:induction false} RowAddrIsRowMajor(b: nat, t: nat, h: nat, tLen: nat, hLen: nat, dLen: nat)
    ensures RowAddr(b, t, h, tLen, hLen, dLen) == Cell(Cell(Cell(b, tLen, t), hLen, h), dLen, 0)
  {
    var hd := hLen * dLen;
    assert b * tLen * hd + t * hd == (b * tLen + t) * hd;
    assert (b * tLen + t) * hd == ((b * tLen + t) * hLen) * dLen;
    assert ((b * tLen + t) * hLen) * dLen + h * dLen == ((b * tLen + t) * hLen + h) * dLen;
  }

  lemma {:induction false} RowAddrFits(b: nat, t: nat, h: nat, bLen: nat, tLen: nat, hLen: nat, dLen: nat)
    requires b < bLen && t < tLen && h < hLen
    ensures RowAddr(b, t, h, tLen, hLen, dLen) + dLen <= bLen * tLen * hLen * dLen
  {
    RowAddrIsRowMajor(b, t, h, tLen, hLen, dLen);
    CellFits(bLen, tLen, b, t);
    CellFits(bLen * tLen, hLen, Cell(b, tLen, t), h);
    MulMono(Cell(Cell(b, tLen, t), hLen, h) + 1, bLen * tLen * hLen, dLen);
  }

  lemma {:induction false} RowAddrInjective(b: nat, t: nat, h: nat, d: nat, b': nat, t': nat, h': nat, d': nat,
                         tLen: nat, hLen: nat, dLen: nat)
    requires t < tLen && h < hLen && d < dLen && t' < tLen && h' < hLen && d' < dLen
    requires RowAddr(b, t, h, tLen, hLen, dLen) + d == RowAddr(b', t', h', tLen, hLen, dLen) + d'
    ensures b == b' && t == t' && h == h' && d == d'
  {
    RowAddrIsRowMajor(b, t, h, tLen, hLen, dLen);
    RowAddrIsRowMajor(b', t', h', tLen, hLen, dLen);
    CellInjective(dLen, Cell(Cell(b, tLen, t), hLen, h), d, Cell(Cell(b', tLen, t'), hLen, h'), d');
    CellInjective(hLen, Cell(b, tLen, t), h, Cell(b', tLen, t'), h');
    CellInjective(tLen, b, t, b', t');
  }

  // Grouped-query attention: consecutive query heads share a key/value head.
  function HeadKv(h: nat, heads: nat, headsKv: nat): (hkv: nat)
    requires headsKv > 0
  {
    var group := if heads / headsKv > 1 then heads / headsKv else 1;
    h / group
  }

  lemma {:induction false} HeadKvFits(h: nat, heads: nat, headsKv: nat)
    requires headsKv > 0 && heads % headsKv == 0 && h < heads
    ensures HeadKv(h, heads, headsKv) < headsKv
  {
    var g := heads / headsKv;
    assert heads == g * headsKv;
    if g == 0 {
      assert false;
    }
    var q := h / g;
    assert q * g <= h;
    if q >= headsKv {
      MulMono(headsKv, q, g);
    }
  }

  // Key/value head kv serves `group` query heads in a row, the first being kv * group.
  ghost predicate Serves(kv: nat, h: nat, heads: nat, headsKv: nat)
    requires headsKv > 0
  {
    kv < headsKv && kv * (heads / headsKv) <= h < kv * (heads / headsKv) + heads / headsKv
  }

  lemma {:induction false} HeadKvOf(kv: nat, h: nat, heads: nat, headsKv: nat)
    requires headsKv > 0 && heads % headsKv == 0 && Serves(kv, h, heads, headsKv)
    ensures h < heads && HeadKv(h, heads, headsKv) == kv
  {
    var g := heads / headsKv;
    GroupInside(kv, headsKv, g, heads);
    QuotientIs(h, kv, g);
  }

  lemma {:induction false} GroupInside(kv: nat, headsKv: nat, g: nat, heads: nat)
    requires kv < headsKv && g == heads / headsKv && heads % headsKv == 0
    ensures kv * g + g <= heads
  {
    assert heads == headsKv * g;
    MulMono(kv + 1, headsKv, g);
    assert (kv + 1) * g == kv * g + g;
  }

  lemma {:induction false} QuotientIs(h: nat, kv: nat, g: nat)
    requires kv * g <= h < kv * g + g
    ensures h / g == kv
  {
    var q := h / g;
    assert h == q * g + h % g;
    assert (q + 1) * g == q * g + g && (kv + 1) * g == kv * g + g;
    if q < kv {
      MulMono(q + 1, kv, g);
    } else if q > kv {
      MulMono(kv + 1, q, g);
    }
  }

  // Every batch-and-head pair is one value of bh, as bh % H and bh / H.
  lemma {:induction false} SplitBatchHead(bh: nat, heads: nat, batch: nat)
    requires heads > 0 && bh < batch * heads
    ensures bh / heads < batch && bh % heads < heads
    ensures bh == Cell(bh / heads, heads, bh % heads)
  {
    if bh / heads >= batch {
      MulMono(batch, bh / heads, heads);
    }
  }
}
