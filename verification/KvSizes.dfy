/** Byte counts of one layer's KV tensors, computed with overflow-checked 64-bit
    arithmetic and compared with the mathematical products and sums. */
module KvSizes {
  import opened Arithmetic
  import opened Bytes
  import opened Options

  function CheckedAdd(acc: nat, add: nat): Option<nat>
    requires acc <= U64_MAX && add <= U64_MAX
  {
    if acc > U64_MAX - add then None else Some(acc + add)
  }

  function CheckedMul(a: nat, b: nat): (r: Option<nat>)
    requires a <= U64_MAX && b <= U64_MAX
    ensures r.Some? ==> r.value <= U64_MAX
  {
    if a != 0 && b > U64_MAX / a then None
    else
      QuotientBound(a, b);
      Some(Times(a, b))
  }

  lemma QuotientBound(a: nat, b: nat)
    ensures a != 0 && b <= U64_MAX / a ==> Times(a, b) <= U64_MAX
    ensures a != 0 && b > U64_MAX / a ==> Times(a, b) > U64_MAX
    ensures a == 0 ==> Times(a, b) == 0
  {
    if a != 0 {
      var q, r := U64_MAX / a, U64_MAX % a;
      assert U64_MAX == q * a + r;
      if b <= q {
        TimesRises(b, q, a);
      } else {
        TimesRises(q + 1, b, a);
        assert (q + 1) * a == q * a + a;
      }
    }
  }

  /** The mathematical value when it fits 64 bits, and nothing otherwise. */
  function Fit(v: nat): Option<nat> { if v <= U64_MAX then Some(v) else None }

  lemma CheckedMulIsExact(a: nat, b: nat)
    requires a <= U64_MAX && b <= U64_MAX
    ensures CheckedMul(a, b) == Fit(Times(a, b))
  {
    QuotientBound(a, b);
  }

  /** Multiplying on, once a product is known to fit or not. */
  function ThenMul(v: Option<nat>, b: nat): (r: Option<nat>)
    requires v.Some? ==> v.value <= U64_MAX
    requires b <= U64_MAX
    ensures r.Some? ==> r.value <= U64_MAX
  {
    if v.None? then None else CheckedMul(v.value, b)
  }

  function ThenAdd(acc: Option<nat>, v: Option<nat>): Option<nat>
    requires acc.Some? ==> acc.value <= U64_MAX
    requires v.Some? ==> v.value <= U64_MAX
  {
    if acc.None? || v.None? then None else CheckedAdd(acc.value, v.value)
  }

  lemma ThenMulIsExact(v: nat, b: nat)
    requires 0 < b <= U64_MAX
    ensures ThenMul(Fit(v), b) == Fit(Times(v, b))
  {
    if v <= U64_MAX { CheckedMulIsExact(v, b); } else { TimesRises(1, b, v); }
  }

  /** Floats in `rows` rows of width `dim`, in bytes. */
  function RowBytes(rows: nat, dim: nat): nat { Times(Times(rows, dim), 4) }

  function Coff(ratio: U32): nat { if ratio == 4 then 2 else 1 }

  /** A compressor state: coff * dim * coff * ratio floats. */
  function StateBytes(ratio: U32, dim: nat): nat {
    Times(Times(Times(Times(Coff(ratio), dim), Coff(ratio)), ratio), 4)
  }

  /** The exact tensor size of a layer: raw rows, and for a compressed layer its rows and
      two states, and for ratio 4 the indexer's as well. */
  function LayerSize(rawLive: U32, headDim: U32, indexerDim: U32, ratio: U32, nComp: U32, nIndex: U32): nat {
    RowBytes(rawLive, headDim)
    + (if ratio == 0 then 0 else RowBytes(nComp, headDim) + StateBytes(ratio, headDim) + StateBytes(ratio, headDim))
    + (if ratio != 4 then 0
       else RowBytes(nIndex, indexerDim) + StateBytes(ratio, indexerDim) + StateBytes(ratio, indexerDim))
  }

  /** In closed form: four bytes a float; a compressed layer also has its rows and states
      of `ratio` rows each for the two of them, four times as many at ratio 4; the indexer
      of a ratio 4 layer the same in its own width. */
  lemma LayerSizeIs(rawLive: U32, headDim: U32, indexerDim: U32, ratio: U32, nComp: U32, nIndex: U32)
    ensures var size := LayerSize(rawLive, headDim, indexerDim, ratio, nComp, nIndex);
      && (ratio == 0 ==> size == 4 * headDim * rawLive)
      && (ratio != 0 && ratio != 4 ==> size == 4 * headDim * (rawLive + nComp + 2 * ratio))
      && (ratio == 4 ==> size == 4 * headDim * (rawLive + nComp + 32) + 4 * indexerDim * (nIndex + 32))
  {
    hide RowBytes, StateBytes;
    RowBytesIs(rawLive, headDim);
    RowBytesIs(nComp, headDim);
    RowBytesIs(nIndex, indexerDim);
    StateBytesIs(ratio, headDim);
    StateBytesIs(ratio, indexerDim);
    Spread(headDim, rawLive, nComp, 2 * ratio);
    Spread(headDim, rawLive, nComp, 32);
    Spread(indexerDim, 0, nIndex, 32);
    assert headDim * (2 * ratio) == 2 * (headDim * ratio);
  }

  lemma RowBytesIs(rows: nat, dim: nat)
    ensures RowBytes(rows, dim) == 4 * (dim * rows)
  {
  }

  lemma StateBytesIs(ratio: U32, dim: nat)
    ensures StateBytes(ratio, dim) == if ratio == 4 then 64 * dim else 4 * (dim * ratio)
  {
    assert Times(1, dim) == dim && Times(dim, 1) == dim;
  }

  lemma Spread(d: nat, a: nat, b: nat, c: nat)
    ensures 4 * d * (a + b + c) == 4 * (d * a) + 4 * (d * b) + 4 * (d * c)
  {
  }

  function CheckedRows(rows: U32, dim: U32): Option<nat> {
    ThenMul(CheckedMul(rows, dim), 4)
  }

  function CheckedState(ratio: U32, dim: U32): Option<nat> {
    ThenMul(ThenMul(ThenMul(CheckedMul(Coff(ratio), dim), Coff(ratio)), ratio), 4)
  }

  lemma CheckedRowsIsExact(rows: U32, dim: U32)
    ensures CheckedRows(rows, dim) == Fit(RowBytes(rows, dim))
  {
    hide CheckedMul, ThenMul, Times;
    CheckedMulIsExact(rows, dim);
    ThenMulIsExact(Times(rows, dim), 4);
  }

  lemma CheckedStateIsExact(ratio: U32, dim: U32)
    requires ratio > 0
    ensures CheckedState(ratio, dim) == Fit(StateBytes(ratio, dim))
  {
    hide CheckedMul, ThenMul, Times;
    var c := Coff(ratio);
    CheckedMulIsExact(c, dim);
    ThenMulIsExact(Times(c, dim), c);
    ThenMulIsExact(Times(Times(c, dim), c), ratio);
    ThenMulIsExact(Times(Times(Times(c, dim), c), ratio), 4);
  }

  /** The source's computation: every product and sum is checked on its own. */
  method LayerBytes(rawLive: U32, headDim: U32, indexerDim: U32, ratio: U32, nComp: U32, nIndex: U32)
    returns (r: Option<nat>)
    ensures r == Fit(LayerSize(rawLive, headDim, indexerDim, ratio, nComp, nIndex))
  {
    hide CheckedRows, CheckedState, RowBytes, StateBytes;
    CheckedRowsIsExact(rawLive, headDim);
    r := CheckedRows(rawLive, headDim);
    if r.None? { return; }
    if ratio != 0 {
      CheckedRowsIsExact(nComp, headDim);
      CheckedStateIsExact(ratio, headDim);
      r := ThenAdd(r, CheckedRows(nComp, headDim));
      if r.None? { return; }
      var attn := CheckedState(ratio, headDim);
      r := ThenAdd(ThenAdd(r, attn), attn);
      if r.None? { return; }
      if ratio == 4 {
        CheckedRowsIsExact(nIndex, indexerDim);
        CheckedStateIsExact(ratio, indexerDim);
        r := ThenAdd(r, CheckedRows(nIndex, indexerDim));
        if r.None? { return; }
        var index := CheckedState(ratio, indexerDim);
        r := ThenAdd(ThenAdd(r, index), index);
      }
    }
  }
}
