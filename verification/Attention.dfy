/** Sliding-window attention of one query over a KV cache, for one head. The cache is
    either indexed by absolute position or a ring in which position p sits in slot
    p % ring. Rounding is left out: sums are exact reals. */
module Attention {
  import opened Modular
  import opened Softmax

  datatype Row = Row(key: Vec, value: Vec)

  function Dot(a: Vec, b: Vec): real
    requires |a| == |b|
  {
    if a == [] then 0.0 else Dot(a[..|a| - 1], b[..|b| - 1]) + a[|a| - 1] * b[|b| - 1]
  }

  function Combined(x: real, a: Vec, b: Vec): (c: Vec)
    requires |a| == |b|
    ensures |c| == |a| && forall i :: 0 <= i < |a| ==> c[i] == OnLine(x, a[i], b[i])
  {
    seq(|a|, i requires 0 <= i < |a| => OnLine(x, a[i], b[i]))
  }

  function OnLine(x: real, a: real, b: real): real { x * a + b }

  function Unit(n: nat, k: nat): (u: Vec)
    ensures |u| == n && forall i :: 0 <= i < n ==> u[i] == if i == k then 1.0 else 0.0
  {
    seq(n, i => if i == k then 1.0 else 0.0)
  }

  /** The dot product is the one linear form that reads off the coordinates. */
  lemma {:induction false} DotIsLinear(q: Vec, x: real, a: Vec, b: Vec)
    requires |q| == |a| == |b|
    ensures Dot(q, Combined(x, a, b)) == x * Dot(q, a) + Dot(q, b)
  {
    if q != [] {
      var n := |q| - 1;
      DotIsLinear(q[..n], x, a[..n], b[..n]);
      assert Combined(x, a, b)[..n] == Combined(x, a[..n], b[..n]) by { hide OnLine; }
      Distributes(x, q[n], a[n], b[n], Dot(q[..n], a[..n]));
    }
  }

  lemma Distributes(x: real, q: real, a: real, b: real, d: real)
    ensures q * (x * a + b) == x * (q * a) + q * b
    ensures x * (d + q * a) == x * d + x * (q * a)
  {
  }

  lemma {:induction false} DotReadsOff(q: Vec, k: nat)
    ensures Dot(q, Unit(|q|, k)) == if k < |q| then q[k] else 0.0
  {
    if q != [] {
      var n := |q| - 1;
      DotReadsOff(q[..n], k);
      assert Unit(|q|, k)[..n] == Unit(n, k);
    }
  }

  function Max(a: real, b: real): real { if a < b then b else a }

  /** The first position a query reads: the window includes the query, 0 is unbounded. */
  function WindowBegin(position: nat, window: nat): (b: nat)
    ensures b <= position
  {
    if window != 0 && position + 1 > window then position + 1 - window else 0
  }

  /** Where a position sits; ring 0 is the absolute layout. */
  function SlotOf(position: nat, ring: nat): (slot: nat)
    ensures ring != 0 ==> slot < ring
    ensures ring == 0 ==> slot == position
  {
    if ring != 0 then Mod(position, ring) else position
  }

  ghost predicate RowsFit(rows: seq<Row>, dim: nat) {
    forall i :: 0 <= i < |rows| ==> |rows[i].key| == |rows[i].value| == dim
  }

  ghost predicate Readable(q: Vec, cache: seq<Row>, ring: nat, begin: nat, end: nat) {
    && RowsFit(cache, |q|)
    && (if ring != 0 then ring <= |cache| else end <= |cache|)
    && begin <= end
  }

  /** The keys a query reads at positions [begin, end), scored, oldest first. */
  ghost function Keys(q: Vec, scale: real, cache: seq<Row>, ring: nat, begin: nat, end: nat): (ks: seq<Key>)
    requires Readable(q, cache, ring, begin, end)
    ensures |ks| == end - begin && Dimension(ks, |q|)
    decreases end
  {
    if end == begin then []
    else Keys(q, scale, cache, ring, begin, end - 1) + [KeyAt(q, scale, cache[SlotOf(end - 1, ring)])]
  }

  function KeyAt(q: Vec, scale: real, row: Row): Key
    requires |row.key| == |q|
  {
    Key(Dot(q, row.key) * scale, row.value)
  }

  /** What attention means: the softmax average of the values, coordinate by coordinate. */
  ghost predicate IsAverage(e: real -> real, ks: seq<Key>, out: Vec)
    requires Dimension(ks, |out|)
  {
    && WeightSum(e, ks) > 0.0
    && forall d :: 0 <= d < |out| ==> out[d] == Weighted(e, ks, d) / WeightSum(e, ks)
  }

  /** The same with one more key of score `sink` whose value is zero. */
  ghost predicate IsSinkAverage(e: real -> real, ks: seq<Key>, sink: real, out: Vec)
    requires Dimension(ks, |out|)
  {
    && WeightSum(e, ks) + e(sink) > 0.0
    && forall d :: 0 <= d < |out| ==> out[d] == Weighted(e, ks, d) / (WeightSum(e, ks) + e(sink))
  }

  lemma UnitShift(e: real -> real, m: real)
    requires Exponential(e)
    ensures e(m - m) == 1.0
  {
    ShiftBack(e, m, m);
    Positive(e, m);
    var u := e(m - m);
    assert (u - 1.0) * e(m) == 0.0;
  }

  lemma ScaledAdd(e: real -> real, ks: seq<Key>, m: real, total: real, acc: Vec, k: Key)
    requires Exponential(e) && Dimension(ks, |acc|) && |k.value| == |acc|
    requires Scaled(e, ks, m, total, acc)
    ensures Dimension(ks + [k], |acc|)
    ensures Scaled(e, ks + [k], m, total + e(k.score - m), Blend(1.0, acc, e(k.score - m), k.value))
  {
    hide Exponential;
    hide Scaled;
    UnitShift(e, m);
    ScaledStep(e, ks, m, total, acc, k, m);
  }

  /** The first key of the running form: nothing is kept of the empty sums. */
  lemma ScaledFirst(e: real -> real, m: real, k: Key)
    requires Exponential(e)
    ensures Scaled(e, [k], k.score, 0.0 * 0.0 + e(k.score - k.score),
                   Blend(0.0, Zeros(|k.value|), e(k.score - k.score), k.value))
  {
    hide Exponential;
    ScaledEmpty(e, m, |k.value|);
    ScaledStep(e, [], m, 0.0, Zeros(|k.value|), k, k.score);
    assert [] + [k] == [k];
    var w := e(k.score - k.score);
    assert Blend(0.0, Zeros(|k.value|), w, k.value) == Blend(e(m - k.score), Zeros(|k.value|), w, k.value);
  }

  function Normalized(acc: Vec, total: real, factor: real): (out: Vec)
    requires total != 0.0
    ensures |out| == |acc|
    ensures forall d :: 0 <= d < |acc| ==> out[d] == acc[d] / total * factor
  {
    seq(|acc|, d requires 0 <= d < |acc| => acc[d] / total * factor)
  }

  lemma TotalPositive(e: real -> real, ks: seq<Key>, m: real, total: real, acc: Vec)
    requires Exponential(e) && Dimension(ks, |acc|) && ks != [] && Scaled(e, ks, m, total, acc)
    ensures total > 0.0 && WeightSum(e, ks) > 0.0
  {
    hide Exponential;
    WeightSumPositive(e, ks);
    Positive(e, m);
    PositiveFactor(total, e(m));
  }

  lemma NormalizedIsAverage(e: real -> real, ks: seq<Key>, m: real, total: real, acc: Vec)
    requires Exponential(e) && Dimension(ks, |acc|) && ks != [] && Scaled(e, ks, m, total, acc)
    ensures total > 0.0 && IsAverage(e, ks, Normalized(acc, total, 1.0))
  {
    hide Exponential;
    TotalPositive(e, ks, m, total, acc);
    forall d | 0 <= d < |acc|
      ensures acc[d] / total == Weighted(e, ks, d) / WeightSum(e, ks)
    {
      ScaledQuotient(e, ks, m, total, acc, d);
    }
  }

  lemma NormalizedIsSinkAverage(e: real -> real, l: real -> real, ks: seq<Key>, m: real, total: real,
                                acc: Vec, sink: real)
    requires Exponential(e) && Logarithm(l, e)
    requires Dimension(ks, |acc|) && ks != [] && Scaled(e, ks, m, total, acc)
    ensures total > 0.0 && 1.0 + e(sink - (m + l(total))) != 0.0
    ensures IsSinkAverage(e, ks, sink, Normalized(acc, total, 1.0 / (1.0 + e(sink - (m + l(total))))))
  {
    hide Exponential;
    hide Logarithm;
    TotalPositive(e, ks, m, total, acc);
    Positive(e, sink);
    Positive(e, sink - (m + l(total)));
    SinkFactor(e, l, ks, m, total, sink);
    var factor := 1.0 / (1.0 + e(sink - (m + l(total))));
    var ws := WeightSum(e, ks);
    forall d | 0 <= d < |acc|
      ensures acc[d] / total * factor == Weighted(e, ks, d) / (ws + e(sink))
    {
      ScaledQuotient(e, ks, m, total, acc, d);
      Chain(Weighted(e, ks, d), ws, ws + e(sink));
    }
  }

  /** The two-pass reference for one query row: the maximum first, then the sums.
      `keys` bounds how many keys the cache holds; 0 means up to the query itself. */
  method ReferenceAttention(e: real -> real, q: Vec, cache: seq<Row>, ring: nat, position: nat,
                            window: nat, keys: nat)
    returns (out: Vec, ghost m: real)
    requires Exponential(e)
    requires Readable(q, cache, ring, 0, position + 1)
    requires WindowBegin(position, window) < KeysEnd(position, keys)
    ensures |out| == |q|
    ensures IsAverage(e, Keys(q, 1.0, cache, ring, WindowBegin(position, window), KeysEnd(position, keys)), out)
    // no exponent is positive, whatever the scores
    ensures forall i :: WindowBegin(position, window) <= i < KeysEnd(position, keys) ==>
      KeyAt(q, 1.0, cache[SlotOf(i, ring)]).score <= m
  {
    hide Exponential, Dot, Scaled, IsAverage, Blend, Normalized;
    var begin, end := WindowBegin(position, window), KeysEnd(position, keys);
    var maximum := KeyAt(q, 1.0, cache[SlotOf(begin, ring)]).score;
    for k := begin to end
      invariant forall i :: begin <= i < k ==> KeyAt(q, 1.0, cache[SlotOf(i, ring)]).score <= maximum
    {
      maximum := Max(maximum, KeyAt(q, 1.0, cache[SlotOf(k, ring)]).score);
    }
    m := maximum;
    var total, acc := 0.0, Zeros(|q|);
    ScaledEmpty(e, maximum, |q|);
    for k := begin to end
      invariant |acc| == |q|
      invariant Scaled(e, Keys(q, 1.0, cache, ring, begin, k), maximum, total, acc)
    {
      var key := KeyAt(q, 1.0, cache[SlotOf(k, ring)]);
      var p := e(key.score - maximum);
      ScaledAdd(e, Keys(q, 1.0, cache, ring, begin, k), maximum, total, acc, key);
      total, acc := total + p, Blend(1.0, acc, p, key.value);
    }
    NormalizedIsAverage(e, Keys(q, 1.0, cache, ring, begin, end), maximum, total, acc);
    out := Normalized(acc, total, 1.0);
  }

  function KeysEnd(position: nat, keys: nat): nat {
    if keys != 0 && keys <= position then keys else position + 1
  }

  /** The single-pass form with a running maximum; the sink joins as a final factor. */
  method SinkAttention(e: real -> real, l: real -> real, q: Vec, cache: seq<Row>, sink: Vec,
                       position: nat, capacity: nat, window: nat, scale: real)
    returns (out: Vec)
    requires Exponential(e) && Logarithm(l, e)
    requires 0 < capacity && |sink| == |q| && Readable(q, cache, capacity, 0, position + 1)
    ensures |out| == |q|
    ensures IsSinkAverage(e, Keys(q, scale, cache, capacity, WindowBegin(position, window), position + 1),
                          Dot(q, sink) * scale, out)
  {
    hide Exponential, Logarithm, Scaled, IsSinkAverage, Blend, Normalized, SlotOf, WindowBegin, Max, WeightSum;
    var begin := WindowBegin(position, window);
    var sinkScore := Dot(q, sink) * scale;
    var maximum, total, acc := 0.0, 0.0, Zeros(|q|);
    ScaledEmpty(e, maximum, |q|);
    for t := begin to position + 1
      invariant |acc| == |q|
      invariant t == begin ==> total == 0.0 && acc == Zeros(|q|)
      invariant Scaled(e, Keys(q, scale, cache, capacity, begin, t), maximum, total, acc)
    {
      var key := KeyAt(q, scale, cache[SlotOf(t, capacity)]);
      var next := if t == begin then key.score else Max(maximum, key.score);
      var prior := if t == begin then 0.0 else e(maximum - next);
      var weight := e(key.score - next);
      ghost var before := Keys(q, scale, cache, capacity, begin, t);
      if t == begin {
        ScaledFirst(e, maximum, key);
        assert before + [key] == [key];
        assert prior * total + weight == 0.0 * 0.0 + weight;
      } else {
        ScaledStep(e, before, maximum, total, acc, key, next);
      }
      assert Scaled(e, before + [key], next, prior * total + weight, Blend(prior, acc, weight, key.value));
      total, acc := prior * total + weight, Blend(prior, acc, weight, key.value);
      maximum := next;
    }
    ghost var ks := Keys(q, scale, cache, capacity, begin, position + 1);
    NormalizedIsSinkAverage(e, l, ks, maximum, total, acc, sinkScore);
    out := Normalized(acc, total, 1.0 / (1.0 + e(sinkScore - (maximum + l(total)))));
    assert sinkScore == Dot(q, sink) * scale;
  }
}
