/** Softmax-weighted sums in exact arithmetic, and the two ways the attention code
    computes them: a first pass for the maximum and a second for the sums, or a single
    pass that rescales whenever the running maximum moves. */
module Softmax {

  type Vec = seq<real>

  /** A key after scoring: its score against the query and its value row. */
  datatype Key = Key(score: real, value: Vec)

  /** All the exponential is used for. */
  ghost predicate Exponential(e: real -> real) {
    && (forall x: real :: e(x) > 0.0)
    && (forall x: real, y: real :: e(x + y) == e(x) * e(y))
  }

  ghost predicate Logarithm(l: real -> real, e: real -> real) {
    forall x: real :: x > 0.0 ==> e(l(x)) == x
  }

  ghost predicate Dimension(ks: seq<Key>, dim: nat) {
    forall i :: 0 <= i < |ks| ==> |ks[i].value| == dim
  }

  /** The textbook denominator and the textbook numerator of one output coordinate. */
  function WeightSum(e: real -> real, ks: seq<Key>): real {
    if ks == [] then 0.0 else WeightSum(e, ks[..|ks| - 1]) + e(ks[|ks| - 1].score)
  }

  function Weighted(e: real -> real, ks: seq<Key>, d: nat): real
    requires forall k <- ks :: d < |k.value|
  {
    if ks == [] then 0.0
    else Weighted(e, ks[..|ks| - 1], d) + e(ks[|ks| - 1].score) * ks[|ks| - 1].value[d]
  }

  /** The invariant of both passes: sums kept relative to a reference score `m`. */
  ghost predicate Scaled(e: real -> real, ks: seq<Key>, m: real, total: real, acc: Vec)
    requires Dimension(ks, |acc|)
  {
    && total * e(m) == WeightSum(e, ks)
    && forall d :: 0 <= d < |acc| ==> acc[d] * e(m) == Weighted(e, ks, d)
  }

  function Zeros(dim: nat): Vec { seq(dim, _ => 0.0) }

  /** prior * acc + weight * value, coordinate by coordinate. */
  function Blend(prior: real, acc: Vec, weight: real, value: Vec): (r: Vec)
    requires |value| == |acc|
    ensures |r| == |acc|
  {
    seq(|acc|, d requires 0 <= d < |acc| => prior * acc[d] + weight * value[d])
  }

  lemma Positive(e: real -> real, x: real)
    requires Exponential(e)
    ensures e(x) > 0.0
  {
  }

  lemma PositiveFactor(a: real, b: real)
    requires a * b > 0.0 && b > 0.0
    ensures a > 0.0
  {
  }

  lemma ShiftBack(e: real -> real, a: real, b: real)
    requires Exponential(e)
    ensures e(a - b) * e(b) == e(a)
  {
    assert (a - b) + b == a;
  }

  lemma {:induction false} WeightSumPositive(e: real -> real, ks: seq<Key>)
    requires Exponential(e)
    ensures ks == [] ==> WeightSum(e, ks) == 0.0
    ensures ks != [] ==> WeightSum(e, ks) > 0.0
  {
    hide Exponential;
    if ks != [] {
      WeightSumPositive(e, ks[..|ks| - 1]);
      Positive(e, ks[|ks| - 1].score);
    }
  }

  lemma ScaledEmpty(e: real -> real, m: real, dim: nat)
    ensures Scaled(e, [], m, 0.0, Zeros(dim))
  {
  }

  lemma BlendStep(p: real, x: real, w: real, y: real, em: real, en: real, es: real)
    requires p * en == em && w * en == es
    ensures (p * x + w * y) * en == x * em + es * y
  {
    calc {
      (p * x + w * y) * en;
      (p * en) * x + (w * en) * y;
      x * em + es * y;
    }
  }

  /** Moving the reference score from `m` to `n` while one more key is added keeps
      every sum equal to its textbook value. */
  lemma ScaledStep(e: real -> real, ks: seq<Key>, m: real, total: real, acc: Vec, k: Key, n: real)
    requires Exponential(e) && Dimension(ks, |acc|) && |k.value| == |acc|
    requires Scaled(e, ks, m, total, acc)
    ensures Dimension(ks + [k], |acc|)
    ensures Scaled(e, ks + [k], n, e(m - n) * total + e(k.score - n),
                   Blend(e(m - n), acc, e(k.score - n), k.value))
  {
    hide Exponential;
    var p, w := e(m - n), e(k.score - n);
    ShiftBack(e, m, n);
    ShiftBack(e, k.score, n);
    assert (ks + [k])[..|ks|] == ks;
    BlendStep(p, total, w, 1.0, e(m), e(n), e(k.score));
    forall d | 0 <= d < |acc|
      ensures Blend(p, acc, w, k.value)[d] * e(n) == Weighted(e, ks + [k], d)
    {
      BlendStep(p, acc[d], w, k.value[d], e(m), e(n), e(k.score));
    }
  }

  lemma Quotient(a: real, b: real, c: real)
    requires b != 0.0 && c != 0.0
    ensures b * c != 0.0 && (a * c) / (b * c) == a / b
  {
    var q := a / b;
    assert q * b == a;
    assert q * (b * c) == a * c;
  }

  /** The reference score cancels in the normalized output. */
  lemma ScaledQuotient(e: real -> real, ks: seq<Key>, m: real, total: real, acc: Vec, d: nat)
    requires Exponential(e) && Dimension(ks, |acc|) && d < |acc| && ks != []
    requires Scaled(e, ks, m, total, acc)
    ensures total > 0.0 && WeightSum(e, ks) > 0.0
    ensures acc[d] / total == Weighted(e, ks, d) / WeightSum(e, ks)
  {
    hide Exponential;
    WeightSumPositive(e, ks);
    Positive(e, m);
    PositiveFactor(total, e(m));
    Quotient(acc[d], total, e(m));
  }

  /** The sink enters after the fact, as a factor on an ordinary softmax. */
  lemma SinkFactor(e: real -> real, l: real -> real, ks: seq<Key>, m: real, total: real, sink: real)
    requires Exponential(e) && Logarithm(l, e) && total > 0.0
    requires total * e(m) == WeightSum(e, ks) && WeightSum(e, ks) > 0.0
    ensures var ws := WeightSum(e, ks);
      1.0 / (1.0 + e(sink - (m + l(total)))) == ws / (ws + e(sink))
  {
    var ws, lse := WeightSum(e, ks), m + l(total);
    assert e(lse) == e(m) * e(l(total)) == ws;
    ShiftBack(e, sink, lse);
    var x := e(sink - lse);
    assert x * ws == e(sink);
    Quotient(1.0, 1.0 + x, ws);
    assert (1.0 + x) * ws == ws + e(sink);
  }

  lemma Chain(a: real, b: real, c: real)
    requires b > 0.0 && c > 0.0
    ensures (a / b) * (b / c) == a / c
  {
    var q := a / b;
    assert q * b == a;
    assert (q * b) / c == q * (b / c);
  }
}
