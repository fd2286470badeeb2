/** What the payload files are made of, byte by byte and field by field. */
module KvLayout {
  import opened Bytes
  import opened KvSizes
  import opened KvPayload

  /** The little-endian word at byte `i`. */
  ghost function WordAt(b: seq<Byte>, i: nat): nat
    requires i + 4 <= |b|
  {
    b[i] as nat + 256 * b[i + 1] as nat + 65536 * b[i + 2] as nat + 16777216 * b[i + 3] as nat
  }

  /** From byte `at` on the words of `vs`, one after another. */
  ghost predicate Holds(b: seq<Byte>, at: nat, vs: seq<U32>) {
    at + 4 * |vs| <= |b| && forall i :: 0 <= i < |vs| ==> WordAt(b, at + 4 * i) == vs[i]
  }

  lemma WordLater(a: seq<Byte>, b: seq<Byte>, i: nat)
    requires i + 4 <= |b|
    ensures WordAt(a + b, |a| + i) == WordAt(b, i)
  {
  }

  lemma FirstWord(v: U32, b: seq<Byte>)
    ensures WordAt(LittleEndian(v) + b, 0) == v
  {
    WordOfBytes(v);
  }

  lemma {:induction false} WordsHold(a: seq<Byte>, vs: seq<U32>, b: seq<Byte>)
    ensures Holds(a + (Words(vs) + b), |a|, vs)
    decreases |vs|
  {
    hide LittleEndian, WordAt;
    var all := a + (Words(vs) + b);
    if vs != [] {
      var v, rest := vs[0], Words(vs[1..]) + b;
      assert Words(vs) + b == LittleEndian(v) + rest;
      WordsHold(a + LittleEndian(v), vs[1..], b);
      assert all == a + LittleEndian(v) + rest;
      FirstWord(v, rest);
      WordLater(a, LittleEndian(v) + rest, 0);
      forall i | 0 <= i < |vs| ensures WordAt(all, |a| + 4 * i) == vs[i] {
        if i > 0 {
          var j := i - 1;
          assert WordAt(all, |a + LittleEndian(v)| + 4 * j) == vs[1..][j];
        }
      }
    }
  }

  /** A session payload: the magic, the version and the layout's eleven fields in this
      order; the tokens; the logits; the two row counts of every layer; the tensors. */
  lemma PayloadLayout(s: Session)
    requires |s.nComp| == |s.nIndex|
    ensures var b, l := PayloadOf(s), s.layout;
      var t, v, n := 4 * |s.tokens|, |s.logits|, 4 * |s.nComp|;
      && |b| == 52 + t + v + 2 * n + |s.tensors|
      && b[..4] == [68, 83, 86, 52]
      && Holds(b, 4, [3, l.ctx, l.prefillCap, l.rawCap, l.rawWindow, l.compCap, l.tokenCount,
                      l.nLayers, l.headDim, l.indexerDim, l.vocab, l.rawLive])
      && Holds(b, 52, s.tokens) && b[52 + t..52 + t + v] == s.logits
      && Holds(b, 52 + t + v, s.nComp) && Holds(b, 52 + t + v + n, s.nIndex)
      && b[52 + t + v + 2 * n..] == s.tensors
  {
    hide Words, Holds, WordAt;
    var b := PayloadOf(s);
    var h, w := SessionWords(s.layout), Words(SessionWords(s.layout));
    var counts := Words(s.nComp) + (Words(s.nIndex) + s.tensors);
    var after := Words(s.tokens) + (s.logits + counts);
    HeaderSplits(h, after);
    assert b == w + after;
    WordsHold(w, s.tokens, s.logits + counts);
    var x := w + Words(s.tokens) + s.logits;
    assert b == x + counts;
    WordsHold(x, s.nComp, Words(s.nIndex) + s.tensors);
    assert b == x + Words(s.nComp) + (Words(s.nIndex) + s.tensors);
    WordsHold(x + Words(s.nComp), s.nIndex, s.tensors);
    assert b == x + Words(s.nComp) + Words(s.nIndex) + s.tensors;
  }

  lemma HeaderSplits(h: seq<U32>, after: seq<Byte>)
    requires h != []
    ensures var b := Words(h) + after;
      |b| == 4 * |h| + |after| && b[..4] == LittleEndian(h[0]) && Holds(b, 4, h[1..])
  {
    hide LittleEndian, Holds;
    WordsHold(LittleEndian(h[0]), h[1..], after);
    assert Words(h) + after == LittleEndian(h[0]) + (Words(h[1..]) + after);
  }

  /** A shard file: another magic, version 1, the layout without the vocabulary, the two
      ends of the range and then the raw rows; the range's row counts; its tensors. */
  lemma ShardLayout(l: Layout, r: Range, nComp: seq<U32>, nIndex: seq<U32>, tensors: seq<Byte>)
    requires r.start <= r.end < l.nLayers && |nComp| == |nIndex|
    ensures var b, n := Shard(l, r, nComp, nIndex, tensors), 4 * |nComp|;
      && |b| == 56 + 2 * n + |tensors|
      && b[..4] == [68, 83, 86, 76]
      && Holds(b, 4, [1, l.ctx, l.prefillCap, l.rawCap, l.rawWindow, l.compCap, l.tokenCount,
                      l.nLayers, l.headDim, l.indexerDim, r.start, r.end, l.rawLive])
      && Holds(b, 56, nComp) && Holds(b, 56 + n, nIndex) && b[56 + 2 * n..] == tensors
  {
    hide Words, Holds, WordAt;
    var b := Shard(l, r, nComp, nIndex, tensors);
    var w := Words(ShardWords(l, r));
    var after := Words(nComp) + (Words(nIndex) + tensors);
    HeaderSplits(ShardWords(l, r), after);
    WordsHold(w, nComp, Words(nIndex) + tensors);
    assert b == w + Words(nComp) + (Words(nIndex) + tensors);
    WordsHold(w + Words(nComp), nIndex, tensors);
    assert b == w + Words(nComp) + Words(nIndex) + tensors;
  }

  /** What a loader accepts in a payload's head, in the fields' own terms. */
  lemma HeadInFields(e: Engine, ctx: nat, payload: seq<Byte>, s: Session)
    ensures var l := s.layout;
      IsHead(e, ctx, payload, s) <==>
        && payload == PayloadOf(s)
        && l.ctx <= ctx && l.tokenCount < ctx && l.vocab == e.vocab && l.nLayers == |e.ratios|
        && l.rawWindow > 0 && l.rawCap > 0 && l.rawLive <= l.rawCap && l.rawLive <= l.rawWindow
        && l.rawLive <= l.tokenCount && l.rawLive in {l.tokenCount, l.rawWindow}
        && |s.tokens| == l.tokenCount && (forall t <- s.tokens :: t < l.vocab && t < 2147483648)
        && |s.logits| == 4 * l.vocab && |s.nComp| == |s.nIndex| == l.nLayers
        && (forall n <- s.nComp + s.nIndex :: n <= l.compCap)
  {
    hide PayloadOf;
    CountsAtMost(s.nComp, s.nIndex, s.layout.compCap);
    TokensBelow(s.tokens, e.vocab);
    hide AtMost, TokensOk;
  }

  lemma CountsAtMost(a: seq<U32>, b: seq<U32>, cap: U32)
    ensures AtMost(a, cap) && AtMost(b, cap) <==> forall n <- a + b :: n <= cap
  {
    assert forall n :: n in a + b <==> n in a || n in b;
    if forall n <- a + b :: n <= cap {
      forall i | 0 <= i < |a| ensures a[i] <= cap { assert a[i] in a + b; }
      forall i | 0 <= i < |b| ensures b[i] <= cap { assert b[i] in a + b; }
    }
  }

  lemma TokensBelow(tokens: seq<U32>, vocab: U32)
    ensures TokensOk(tokens, vocab) <==> forall t <- tokens :: t < vocab && t < 2147483648
  {
    if forall t <- tokens :: t < vocab && t < 2147483648 {
      forall i | 0 <= i < |tokens| ensures tokens[i] <= INT_MAX && tokens[i] < vocab { assert tokens[i] in tokens; }
    }
  }

  /** And in a shard. */
  lemma ShardInFields(e: Engine, r: Range, p: Parsed)
    ensures var l := p.layout;
      GoodShard(e, r, p) <==>
        && r.start <= r.end < l.nLayers == |e.ratios|
        && l.rawWindow > 0 && l.rawCap > 0 && l.rawLive <= l.rawCap && l.rawLive <= l.rawWindow
        && l.rawLive <= l.tokenCount && l.rawLive in {l.tokenCount, l.rawWindow}
        && |p.nComp| == |p.nIndex| == r.end - r.start + 1
        && (forall n <- p.nComp + p.nIndex :: n <= l.compCap)
        && |p.tensors| == RangeSize(e, l, r.start, p.nComp, p.nIndex) <= U64_MAX
  {
    hide RangeSize;
    CountsAtMost(p.nComp, p.nIndex, p.layout.compCap);
    hide AtMost;
  }

  /** A layer's tensors take the bytes its own ratio and row counts call for. */
  lemma LayerTensors(e: Engine, s: Session, layer: nat)
    requires layer < |s.nComp| == |s.nIndex| == |e.ratios|
    ensures var l := s.layout;
      var ratio: nat, n: nat, m: nat := e.ratios[layer], s.nComp[layer], s.nIndex[layer];
      Offset(e, s, layer + 1) - Offset(e, s, layer)
      == if ratio == 0 then 4 * l.headDim * l.rawLive
         else if ratio == 4 then 4 * l.headDim * (l.rawLive + n + 32) + 4 * l.indexerDim * (m + 32)
         else 4 * l.headDim * (l.rawLive + n + 2 * ratio)
    ensures Offset(e, s, 0) == 0
  {
    OffsetStep(e, s, layer);
    OffsetZero(e, s);
    LayerSizeIs(s.layout.rawLive, s.layout.headDim, s.layout.indexerDim, e.ratios[layer], s.nComp[layer], s.nIndex[layer]);
    hide Offset, LayerSize;
  }
}
