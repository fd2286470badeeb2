/** Saving and loading a distributed session's KV state. Each shard file holds a slice of
    layers; the session payload holds all of them in one topology-neutral form that is
    gathered from one route's shards and split over another's. */
module KvPayload {
  import opened Bytes
  import opened Options
  import opened KvSizes

  const SESSION_MAGIC: U32 := 0x34565344
  const SESSION_VERSION: U32 := 3
  const LAYER_MAGIC: U32 := 0x4c565344
  const LAYER_VERSION: U32 := 1
  const INT_MAX: nat := 0x7FFF_FFFF

  datatype Layout = Layout(ctx: U32, prefillCap: U32, rawCap: U32, rawWindow: U32, compCap: U32,
                           tokenCount: U32, nLayers: U32, headDim: U32, indexerDim: U32, vocab: U32, rawLive: U32)

  /** What the engine fixes: the vocabulary and each layer's compression ratio. */
  datatype Engine = Engine(vocab: U32, ratios: seq<U32>)

  /** A whole session's state, independent of which node holds which layer: the tensors
      of all layers one after another, each as long as its row counts say. */
  datatype Session = Session(layout: Layout, tokens: seq<U32>, logits: seq<Byte>,
                             nComp: seq<U32>, nIndex: seq<U32>, tensors: seq<Byte>)

  /** Layer ranges, both ends included, in shard order: the coordinator's own first. */
  datatype Range = Range(start: nat, end: nat)

  predicate RawLiveValid(l: Layout) {
    && l.rawWindow != 0 && l.rawCap != 0
    && l.rawLive == (if l.tokenCount < l.rawWindow then l.tokenCount else l.rawWindow)
    && l.rawLive <= l.rawCap
  }

  predicate AtMost(counts: seq<U32>, cap: U32) { forall i | 0 <= i < |counts| :: counts[i] <= cap }

  function SizeAt(e: Engine, l: Layout, layer: nat, nComp: U32, nIndex: U32): nat
    requires layer < |e.ratios|
  {
    LayerSize(l.rawLive, l.headDim, l.indexerDim, e.ratios[layer], nComp, nIndex)
  }

  /** The 14 header words of a shard and the 13 of a session payload. */
  function ShardWords(l: Layout, r: Range): seq<U32>
    requires r.start <= r.end < l.nLayers
  {
    [LAYER_MAGIC, LAYER_VERSION, l.ctx, l.prefillCap, l.rawCap, l.rawWindow, l.compCap, l.tokenCount,
     l.nLayers, l.headDim, l.indexerDim, r.start, r.end, l.rawLive]
  }

  function SessionWords(l: Layout): seq<U32> {
    [SESSION_MAGIC, SESSION_VERSION, l.ctx, l.prefillCap, l.rawCap, l.rawWindow, l.compCap, l.tokenCount,
     l.nLayers, l.headDim, l.indexerDim, l.vocab, l.rawLive]
  }

  /** The shard file for a layer range. */
  function Shard(l: Layout, r: Range, nComp: seq<U32>, nIndex: seq<U32>, tensors: seq<Byte>): seq<Byte>
    requires r.start <= r.end < l.nLayers
  {
    Words(ShardWords(l, r)) + (Words(nComp) + (Words(nIndex) + tensors))
  }

  /** Where a layer's tensors start in the session's. */
  function Offset(e: Engine, s: Session, layer: nat): nat
    requires layer <= |s.nComp| == |s.nIndex| == |e.ratios|
  {
    RangeSize(e, s.layout, 0, s.nComp[..layer], s.nIndex[..layer])
  }

  /** Every part of a session has the size the other parts say it has. */
  ghost predicate Consistent(e: Engine, s: Session) {
    && 0 < |e.ratios| == s.layout.nLayers == |s.nComp| == |s.nIndex|
    && s.layout.vocab == e.vocab && RawLiveValid(s.layout)
    && |s.tokens| == s.layout.tokenCount && |s.logits| == 4 * e.vocab
    && AtMost(s.nComp, s.layout.compCap) && AtMost(s.nIndex, s.layout.compCap)
    && |s.tensors| == Offset(e, s, |s.nComp|)
  }

  /** A layer range's part of a session: its row counts and exactly its tensor bytes. */
  ghost function PartOf(e: Engine, s: Session, r: Range): Parsed
    requires Consistent(e, s) && r.start <= r.end < s.layout.nLayers
  {
    OffsetsRise(e, s, r.start, r.end + 1);
    OffsetsRise(e, s, r.end + 1, |s.nComp|);
    Parsed(s.layout, s.nComp[r.start..r.end + 1], s.nIndex[r.start..r.end + 1],
           s.tensors[Offset(e, s, r.start)..Offset(e, s, r.end + 1)])
  }

  ghost function ShardOf(e: Engine, s: Session, r: Range): seq<Byte>
    requires Consistent(e, s) && r.start <= r.end < s.layout.nLayers
  {
    var p := PartOf(e, s, r);
    Shard(p.layout, r, p.nComp, p.nIndex, p.tensors)
  }

  lemma OffsetsRise(e: Engine, s: Session, i: nat, j: nat)
    requires i <= j <= |s.nComp| == |s.nIndex| == |e.ratios|
    ensures Offset(e, s, i) <= Offset(e, s, j)
  {
    RangeSizeGrows(e, s.layout, 0, s.nComp[..j], s.nIndex[..j], i);
    assert s.nComp[..j][..i] == s.nComp[..i] && s.nIndex[..j][..i] == s.nIndex[..i];
  }

  /** The session payload: header, tokens, logits, both row-count arrays, all tensors. */
  function PayloadOf(s: Session): seq<Byte> {
    Words(SessionWords(s.layout)) + (Words(s.tokens) + (s.logits + (Words(s.nComp) + (Words(s.nIndex) + s.tensors))))
  }

  /** Contiguous ranges from layer 0 through the last. */
  ghost predicate Covers(route: seq<Range>, nLayers: nat) {
    && route != [] && route[0].start == 0 && route[|route| - 1].end + 1 == nLayers
    && (forall i :: 0 <= i < |route| ==> route[i].start <= route[i].end < nLayers)
    && (forall i :: 0 < i < |route| ==> route[i].start == route[i - 1].end + 1)
  }

  method ValidateRoute(route: seq<Range>, nLayers: nat) returns (ok: bool)
    requires route != []
    ensures ok <==> Covers(route, nLayers)
  {
    if nLayers == 0 || route[0].start != 0 || route[0].end >= nLayers { return false; }
    var prev := route[0].end;
    for i := 1 to |route|
      invariant prev == route[i - 1].end < nLayers
      invariant forall j :: 0 <= j < i ==> route[j].start <= route[j].end < nLayers
      invariant forall j :: 0 < j < i ==> route[j].start == route[j - 1].end + 1
    {
      var r := route[i];
      if r.start != prev + 1 || r.end < r.start || r.end >= nLayers { return false; }
      prev := r.end;
    }
    ok := prev + 1 == nLayers;
  }

  /** The exact tensor bytes of a layer range, given its row counts. */
  function RangeSize(e: Engine, l: Layout, start: nat, nComp: seq<U32>, nIndex: seq<U32>): nat
    requires |nComp| == |nIndex| && start + |nComp| <= |e.ratios|
  {
    if nComp == [] then 0
    else
      var n := |nComp| - 1;
      RangeSize(e, l, start, nComp[..n], nIndex[..n]) + SizeAt(e, l, start + n, nComp[n], nIndex[n])
  }

  datatype Parsed = Parsed(layout: Layout, nComp: seq<U32>, nIndex: seq<U32>, tensors: seq<Byte>)

  /** The shard's size check: every layer's size and their sum, overflow-checked. */
  method CheckedRangeSize(e: Engine, l: Layout, start: nat, nComp: seq<U32>, nIndex: seq<U32>)
    returns (r: Option<nat>)
    requires |nComp| == |nIndex| && start + |nComp| <= |e.ratios|
    ensures r == Fit(RangeSize(e, l, start, nComp, nIndex))
  {
    hide LayerSize;
    var sum := 0;
    for i := 0 to |nComp|
      invariant sum == RangeSize(e, l, start, nComp[..i], nIndex[..i]) <= U64_MAX
    {
      assert nComp[..i + 1][..i] == nComp[..i] && nIndex[..i + 1][..i] == nIndex[..i];
      RangeSizeGrows(e, l, start, nComp, nIndex, i + 1);
      var size := LayerBytes(l.rawLive, l.headDim, l.indexerDim, e.ratios[start + i], nComp[i], nIndex[i]);
      if size.None? { return None; }
      var next := CheckedAdd(sum, size.value);
      if next.None? { return None; }
      sum := next.value;
    }
    assert nComp[..|nComp|] == nComp && nIndex[..|nIndex|] == nIndex;
    r := Some(sum);
  }

  lemma {:induction false} RangeSizeGrows(e: Engine, l: Layout, start: nat, nComp: seq<U32>, nIndex: seq<U32>, i: nat)
    requires |nComp| == |nIndex| && start + |nComp| <= |e.ratios| && i <= |nComp|
    ensures RangeSize(e, l, start, nComp[..i], nIndex[..i]) <= RangeSize(e, l, start, nComp, nIndex)
  {
    hide LayerSize;
    var n := |nComp|;
    if i == n {
      assert nComp[..i] == nComp && nIndex[..i] == nIndex;
    } else {
      RangeSizeGrows(e, l, start, nComp[..n - 1], nIndex[..n - 1], i);
      assert nComp[..n - 1][..i] == nComp[..i] && nIndex[..n - 1][..i] == nIndex[..i];
    }
  }

  /** Taking a known run of words off the front, and putting any run back. */
  lemma TakeWords(vs: seq<U32>, rest: seq<Byte>, b: seq<Byte>)
    requires b == Words(vs) + rest
    ensures |b| == 4 * |vs| + |rest| && ReadWords(b, |vs|) == vs && b[4 * |vs|..] == rest
  {
    hide ReadWords, Words;
    ReadBack(vs, rest);
  }

  lemma SplitWords(b: seq<Byte>, n: nat)
    requires 4 * n <= |b|
    ensures b == Words(ReadWords(b, n)) + b[4 * n..]
  {
    hide ReadWords, Words;
    WriteBack(b, n);
    assert b == b[..4 * n] + b[4 * n..];
  }

  /** What a shard must say about itself to be believed. */
  ghost predicate GoodShard(e: Engine, r: Range, p: Parsed) {
    && r.start <= r.end < p.layout.nLayers == |e.ratios| && RawLiveValid(p.layout)
    && |p.nComp| == |p.nIndex| == r.end + 1 - r.start
    && AtMost(p.nComp, p.layout.compCap) && AtMost(p.nIndex, p.layout.compCap)
    && |p.tensors| == RangeSize(e, p.layout, r.start, p.nComp, p.nIndex) <= U64_MAX
  }

  ghost predicate IsShard(e: Engine, r: Range, vocab: U32, known: Option<Layout>, file: seq<Byte>, p: Parsed) {
    && GoodShard(e, r, p) && p.layout.vocab == vocab
    && (known.Some? ==> known.value == p.layout)
    && file == Shard(p.layout, r, p.nComp, p.nIndex, p.tensors)
  }

  /** Reads and checks one shard file. `known` is the layout of the shards before it. It
      succeeds exactly on the encodings of believable shards, and returns their contents. */
  method ParseShard(e: Engine, file: seq<Byte>, r: Range, vocab: U32, known: Option<Layout>)
    returns (o: Option<Parsed>)
    requires known.Some? ==> known.value.vocab == vocab
    ensures forall p :: o == Some(p) <==> IsShard(e, r, vocab, known, file, p)
  {
    hide Words, ReadWords, RangeSize, LayerSize, AtMost, RawLiveValid, Shard;
    forall p: Parsed | IsShard(e, r, vocab, known, file, p)
      ensures |file| >= 56 && ReadWords(file, 14) == ShardWords(p.layout, r)
      ensures ShardBody(file[56..], p)
    {
      ShardReads(e, r, file, p);
    }
    if |file| < 56 { return None; }
    var h := ReadWords(file, 14);
    if h[0] != LAYER_MAGIC || h[1] != LAYER_VERSION { return None; }
    var got := Layout(h[2], h[3], h[4], h[5], h[6], h[7], h[8], h[9], h[10], vocab, h[13]);
    if h[11] != r.start || h[12] != r.end || h[11] > h[12] || h[12] >= got.nLayers { return None; }
    if got.nLayers != |e.ratios| || !RawLiveValid(got) { return None; }
    if known.Some? && known.value != got { return None; }
    assert h == ShardWords(got, r);
    var n := h[12] - h[11] + 1;
    var body := file[56..];
    if |body| < 8 * n { return None; }
    var nComp := ReadWords(body, n);
    var rest := body[4 * n..];
    var nIndex := ReadWords(rest, n);
    var tensors := rest[4 * n..];
    ghost var it := Parsed(got, nComp, nIndex, tensors);
    assert forall p :: IsShard(e, r, vocab, known, file, p) ==> p == it;
    if !AtMost(nComp, got.compCap) || !AtMost(nIndex, got.compCap) { return None; }
    var size := CheckedRangeSize(e, got, r.start, nComp, nIndex);
    if size.None? || |tensors| != size.value { return None; }
    ShardAssembled(e, r, vocab, known, file, it);
    o := Some(Parsed(got, nComp, nIndex, tensors));
  }

  lemma ShardReads(e: Engine, r: Range, file: seq<Byte>, p: Parsed)
    requires GoodShard(e, r, p) && file == Shard(p.layout, r, p.nComp, p.nIndex, p.tensors)
    ensures |file| >= 56 && ReadWords(file, 14) == ShardWords(p.layout, r)
    ensures ShardBody(file[56..], p)
  {
    hide Words, ReadWords;
    TakeWords(ShardWords(p.layout, r), Words(p.nComp) + (Words(p.nIndex) + p.tensors), file);
    TakeBody(file[56..], p);
  }

  lemma ShardAssembled(e: Engine, r: Range, vocab: U32, known: Option<Layout>, file: seq<Byte>, p: Parsed)
    requires GoodShard(e, r, p) && p.layout.vocab == vocab && (known.Some? ==> known.value == p.layout)
    requires |file| >= 56 && ReadWords(file, 14) == ShardWords(p.layout, r) && ShardBody(file[56..], p)
    ensures IsShard(e, r, vocab, known, file, p)
  {
    hide Words, ReadWords, GoodShard, RawLiveValid;
    var n := |p.nComp|;
    var body := file[56..];
    SplitWords(file, 14);
    SplitWords(body, n);
    SplitWords(body[4 * n..], n);
  }

  /** A shard's bytes after its header, as the reader takes them apart. */
  ghost predicate ShardBody(body: seq<Byte>, p: Parsed) {
    var n := |p.nComp|;
    && 8 * n <= |body|
    && ReadWords(body, n) == p.nComp && ReadWords(body[4 * n..], n) == p.nIndex
    && body[4 * n..][4 * n..] == p.tensors
  }

  lemma TakeBody(body: seq<Byte>, p: Parsed)
    requires |p.nComp| == |p.nIndex| && body == Words(p.nComp) + (Words(p.nIndex) + p.tensors)
    ensures ShardBody(body, p)
  {
    hide Words, ReadWords;
    TakeWords(p.nComp, Words(p.nIndex) + p.tensors, body);
    TakeWords(p.nIndex, p.tensors, body[4 * |p.nComp|..]);
  }

  /** A range's size is the distance between its offsets. */
  lemma {:induction false} RangeIsOffset(e: Engine, s: Session, a: nat, b: nat)
    requires a <= b <= |s.nComp| == |s.nIndex| == |e.ratios|
    ensures RangeSize(e, s.layout, a, s.nComp[a..b], s.nIndex[a..b]) == Offset(e, s, b) - Offset(e, s, a)
    decreases b
  {
    hide LayerSize;
    if a < b {
      RangeIsOffset(e, s, a, b - 1);
      assert s.nComp[a..b][..b - 1 - a] == s.nComp[a..b - 1] && s.nIndex[a..b][..b - 1 - a] == s.nIndex[a..b - 1];
      assert s.nComp[..b][..b - 1] == s.nComp[..b - 1] && s.nIndex[..b][..b - 1] == s.nIndex[..b - 1];
    }
  }

  lemma PartIsGood(e: Engine, s: Session, r: Range)
    requires Consistent(e, s) && r.start <= r.end < s.layout.nLayers && |s.tensors| <= U64_MAX
    ensures GoodShard(e, r, PartOf(e, s, r))
  {
    hide RangeSize, RawLiveValid;
    RangeIsOffset(e, s, r.start, r.end + 1);
    OffsetsRise(e, s, r.start, r.end + 1);
    OffsetsRise(e, s, r.end + 1, |s.nComp|);
  }

  /** The shard files are one session's, cut along a route. */
  ghost predicate CutFrom(e: Engine, route: seq<Range>, files: seq<seq<Byte>>, s: Session) {
    && Consistent(e, s) && Covers(route, s.layout.nLayers) && |files| == |route|
    && forall k :: 0 <= k < |route| ==> files[k] == ShardOf(e, s, route[k])
  }

  /** What is known after `k` shards: the parts put together are theirs, and if the files
      are a session's, they are the start of that session. */
  ghost predicate Backed(e: Engine, route: seq<Range>, files: seq<seq<Byte>>, k: nat, p: Parsed) {
    && 0 < k <= |route| == |files| && |p.nComp| == |p.nIndex| == route[k - 1].end + 1
    && Assembled(e, p.layout, p.nComp, p.nIndex, p.tensors)
    && forall j :: 0 <= j < k ==> PartAt(e, p.layout, p.nComp, p.nIndex, p.tensors, route[j], files[j])
  }

  ghost predicate Begins(e: Engine, route: seq<Range>, files: seq<seq<Byte>>, n: nat, layout: Option<Layout>, p: Parsed) {
    forall s: Session :: CutFrom(e, route, files, s) && |s.tensors| <= U64_MAX ==>
      Gathered(e, s, n, layout, p.nComp, p.nIndex, p.tensors)
  }

  /** Reads the next shard and appends its part. */
  method GatherNext(e: Engine, route: seq<Range>, files: seq<seq<Byte>>, k: nat, layout: Option<Layout>, was: Parsed)
    returns (o: Option<Parsed>)
    requires Covers(route, |e.ratios|) && k < |route| == |files| && |was.nComp| == |was.nIndex| == route[k].start
    requires if k == 0 then layout == None && was.tensors == []
             else layout == Some(was.layout) && Backed(e, route, files, k, was)
    requires Begins(e, route, files, route[k].start, layout, was)
    ensures o.Some? ==> Backed(e, route, files, k + 1, o.value)
                        && Begins(e, route, files, route[k].end + 1, Some(o.value.layout), o.value)
    ensures o.None? ==> forall s :: CutFrom(e, route, files, s) ==> |s.tensors| > U64_MAX
  {
    hide Gathered, CutFrom, IsShard, PartAt, Assembled, GoodShard, Shard, RangeSize, Covers;
    if k > 0 { VocabIs(e, was); }
    var parsed := ParseShard(e, files[k], route[k], e.vocab, layout);
    forall s: Session | CutFrom(e, route, files, s) && |s.tensors| <= U64_MAX
      ensures parsed.Some?
      ensures Gathered(e, s, route[k].end + 1, Some(parsed.value.layout), was.nComp + parsed.value.nComp,
                       was.nIndex + parsed.value.nIndex, was.tensors + parsed.value.tensors)
    {
      ShardGathers(e, route, files, s, k, layout, was.nComp, was.nIndex, was.tensors, parsed);
    }
    if parsed.None? { return None; }
    var p := parsed.value;
    ShardIsGood(e, route[k], layout, files[k], p);
    StartsAtZero(route, |e.ratios|);
    Append(e, p.layout, was.nComp, was.nIndex, was.tensors, route, files, k, p);
    o := Some(Parsed(p.layout, was.nComp + p.nComp, was.nIndex + p.nIndex, was.tensors + p.tensors));
  }

  lemma VocabIs(e: Engine, p: Parsed)
    requires Assembled(e, p.layout, p.nComp, p.nIndex, p.tensors)
    ensures p.layout.vocab == e.vocab
  {
  }

  lemma StartsAtZero(route: seq<Range>, nLayers: nat)
    requires Covers(route, nLayers)
    ensures route != [] && route[0].start == 0
  {
  }

  /** Reads the shards of a route one after another and puts their parts together. */
  method GatherShards(e: Engine, route: seq<Range>, files: seq<seq<Byte>>) returns (o: Option<Parsed>)
    requires Covers(route, |e.ratios|) && |files| == |route|
    ensures forall s :: CutFrom(e, route, files, s) && |s.tensors| <= U64_MAX ==>
      o == Some(Parsed(s.layout, s.nComp, s.nIndex, s.tensors))
    ensures o.Some? ==> |o.value.nComp| == |e.ratios| && Backed(e, route, files, |route|, o.value)
  {
    hide CutFrom, Begins, Backed;
    var layout: Option<Layout> := None;
    var p := Parsed(Layout(0, 0, 0, 0, 0, 0, 0, 0, 0, 0, 0), [], [], []);
    BeginsWithNone(e, route, files, p);
    for k := 0 to |route|
      invariant |p.nComp| == |p.nIndex| == if k == 0 then 0 else route[k - 1].end + 1
      invariant if k == 0 then layout == None && p.tensors == [] else layout == Some(p.layout) && Backed(e, route, files, k, p)
      invariant Begins(e, route, files, |p.nComp|, layout, p)
    {
      StartIs(route, |e.ratios|, k);
      var next := GatherNext(e, route, files, k, layout, p);
      if next.None? { return None; }
      p := next.value;
      layout := Some(p.layout);
      SizeBacked(e, route, files, k + 1, p);
    }
    BeginsIsAll(e, route, files, p);
    o := Some(p);
  }

  lemma StartIs(route: seq<Range>, nLayers: nat, k: nat)
    requires Covers(route, nLayers) && k < |route|
    ensures route[k].start == if k == 0 then 0 else route[k - 1].end + 1
  {
  }

  lemma BeginsWithNone(e: Engine, route: seq<Range>, files: seq<seq<Byte>>, p: Parsed)
    requires p.nComp == [] && p.nIndex == [] && p.tensors == []
    ensures Begins(e, route, files, 0, None, p)
  {
    hide Gathered;
    forall s: Session | CutFrom(e, route, files, s) ensures Gathered(e, s, 0, None, [], [], []) { GatheredNone(e, s); }
  }

  lemma BeginsIsAll(e: Engine, route: seq<Range>, files: seq<seq<Byte>>, p: Parsed)
    requires |p.nComp| == |e.ratios| && Begins(e, route, files, |p.nComp|, Some(p.layout), p)
    ensures forall s :: CutFrom(e, route, files, s) && |s.tensors| <= U64_MAX ==>
      p == Parsed(s.layout, s.nComp, s.nIndex, s.tensors)
  {
    hide Gathered, CutFrom;
    forall s: Session | CutFrom(e, route, files, s) && |s.tensors| <= U64_MAX
      ensures p == Parsed(s.layout, s.nComp, s.nIndex, s.tensors)
    {
      GatheredAll(e, s, Some(p.layout), p.nComp, p.nIndex, p.tensors);
    }
  }

  lemma SizeBacked(e: Engine, route: seq<Range>, files: seq<seq<Byte>>, k: nat, p: Parsed)
    requires Backed(e, route, files, k, p)
    ensures 0 < k <= |route| && |p.nComp| == |p.nIndex| == route[k - 1].end + 1
  {
  }

  /** Gathers the shards of a route into one payload. It succeeds exactly when the route
      covers the layers and the files are one session's cut along it. */
  method SavePayload(e: Engine, route: seq<Range>, files: seq<seq<Byte>>, tokens: seq<U32>, logits: seq<Byte>)
    returns (o: Option<seq<Byte>>)
    requires route != [] && |files| == |route| && |logits| == 4 * e.vocab
    ensures forall s :: CutFrom(e, route, files, s) && |s.tensors| <= U64_MAX && s.tokens == tokens && s.logits == logits ==>
      o == Some(PayloadOf(s))
    ensures o.Some? ==> exists s :: CutFrom(e, route, files, s) && s.tokens == tokens && s.logits == logits && o.value == PayloadOf(s)
  {
    hide RangeSize, RawLiveValid, Words, Shard, AtMost, Assembled, PartAt;
    var ok := ValidateRoute(route, |e.ratios|);
    if !ok { return None; }
    var gathered := GatherShards(e, route, files);
    if gathered.None? { return None; }
    var p := gathered.value;
    if p.layout.tokenCount != |tokens| || p.layout.nLayers != |e.ratios| { return None; }
    var s := Session(p.layout, tokens, logits, p.nComp, p.nIndex, p.tensors);
    AssembledIsCut(e, route, files, s);
    hide CutFrom;
    o := Some(PayloadOf(s));
  }

  lemma ShardIsGood(e: Engine, r: Range, known: Option<Layout>, file: seq<Byte>, p: Parsed)
    requires IsShard(e, r, e.vocab, known, file, p)
    ensures GoodShard(e, r, p) && p.layout.vocab == e.vocab && (known.Some? ==> known.value == p.layout)
    ensures r.start <= r.end < p.layout.nLayers && |p.nComp| == |p.nIndex| == r.end + 1 - r.start
    ensures file == Shard(p.layout, r, p.nComp, p.nIndex, p.tensors)
  {
  }

  lemma ShardGathers(e: Engine, route: seq<Range>, files: seq<seq<Byte>>, s: Session, k: nat, layout: Option<Layout>,
                     nComp: seq<U32>, nIndex: seq<U32>, tensors: seq<Byte>, parsed: Option<Parsed>)
    requires CutFrom(e, route, files, s) && |s.tensors| <= U64_MAX && k < |route|
    requires Gathered(e, s, route[k].start, layout, nComp, nIndex, tensors)
    requires forall p :: parsed == Some(p) <==> IsShard(e, route[k], e.vocab, layout, files[k], p)
    ensures parsed.Some?
    ensures Gathered(e, s, route[k].end + 1, Some(parsed.value.layout), nComp + parsed.value.nComp,
                     nIndex + parsed.value.nIndex, tensors + parsed.value.tensors)
  {
    hide RangeSize, RawLiveValid, Words, Shard, AtMost;
    PartIsGood(e, s, route[k]);
    assert IsShard(e, route[k], e.vocab, layout, files[k], PartOf(e, s, route[k]));
    GatheredStep(e, s, route[k], layout, nComp, nIndex, tensors);
  }

  /** What has been put together so far is as long as its own counts say. */
  ghost predicate Assembled(e: Engine, l: Layout, nComp: seq<U32>, nIndex: seq<U32>, tensors: seq<Byte>) {
    && |nComp| == |nIndex| <= |e.ratios| == l.nLayers && l.vocab == e.vocab && RawLiveValid(l)
    && AtMost(nComp, l.compCap) && AtMost(nIndex, l.compCap)
    && |tensors| == RangeSize(e, l, 0, nComp, nIndex)
  }

  function PrefixSize(e: Engine, l: Layout, nComp: seq<U32>, nIndex: seq<U32>, i: nat): nat
    requires i <= |nComp| == |nIndex| <= |e.ratios|
  {
    RangeSize(e, l, 0, nComp[..i], nIndex[..i])
  }

  /** A shard file is its range's part of what has been put together. */
  ghost predicate PartAt(e: Engine, l: Layout, nComp: seq<U32>, nIndex: seq<U32>, tensors: seq<Byte>, r: Range, file: seq<Byte>) {
    && r.start <= r.end < |nComp| == |nIndex| <= |e.ratios| == l.nLayers
    && var (a, b) := (PrefixSize(e, l, nComp, nIndex, r.start), PrefixSize(e, l, nComp, nIndex, r.end + 1));
       a <= b <= |tensors|
       && file == Shard(l, r, nComp[r.start..r.end + 1], nIndex[r.start..r.end + 1], tensors[a..b])
  }

  lemma {:induction false} RangeConcat(e: Engine, l: Layout, a: seq<U32>, a': seq<U32>, b: seq<U32>, b': seq<U32>)
    requires |a| == |a'| && |b| == |b'| && |a| + |b| <= |e.ratios|
    ensures RangeSize(e, l, 0, a + b, a' + b') == RangeSize(e, l, 0, a, a') + RangeSize(e, l, |a|, b, b')
    decreases |b|
  {
    hide LayerSize;
    if b == [] {
      assert a + b == a && a' + b' == a';
    } else {
      var n := |b| - 1;
      RangeConcat(e, l, a, a', b[..n], b'[..n]);
      assert (a + b)[..|a| + n] == a + b[..n] && (a' + b')[..|a| + n] == a' + b'[..n];
    }
  }

  lemma PartStays(e: Engine, l: Layout, nComp: seq<U32>, nIndex: seq<U32>, tensors: seq<Byte>, r: Range, file: seq<Byte>, p: Parsed)
    requires PartAt(e, l, nComp, nIndex, tensors, r, file) && |p.nComp| == |p.nIndex| && |nComp| + |p.nComp| <= |e.ratios|
    ensures PartAt(e, l, nComp + p.nComp, nIndex + p.nIndex, tensors + p.tensors, r, file)
  {
    hide RangeSize, Shard;
    var (c, i) := (nComp + p.nComp, nIndex + p.nIndex);
    assert c[..r.start] == nComp[..r.start] && i[..r.start] == nIndex[..r.start];
    assert c[..r.end + 1] == nComp[..r.end + 1] && i[..r.end + 1] == nIndex[..r.end + 1];
    assert c[r.start..r.end + 1] == nComp[r.start..r.end + 1] && i[r.start..r.end + 1] == nIndex[r.start..r.end + 1];
    var (a, b) := (PrefixSize(e, l, nComp, nIndex, r.start), PrefixSize(e, l, nComp, nIndex, r.end + 1));
    assert (tensors + p.tensors)[a..b] == tensors[a..b];
  }

  lemma AtMostBoth(a: seq<U32>, b: seq<U32>, cap: U32)
    requires AtMost(a, cap) && AtMost(b, cap)
    ensures AtMost(a + b, cap)
  {
  }

  lemma AssembledMore(e: Engine, l: Layout, nComp: seq<U32>, nIndex: seq<U32>, tensors: seq<Byte>, r: Range, p: Parsed)
    requires GoodShard(e, r, p) && p.layout == l && l.vocab == e.vocab
    requires |nComp| == |nIndex| == r.start && |tensors| == RangeSize(e, l, 0, nComp, nIndex)
    requires AtMost(nComp, l.compCap) && AtMost(nIndex, l.compCap)
    ensures Assembled(e, l, nComp + p.nComp, nIndex + p.nIndex, tensors + p.tensors)
  {
    hide RangeSize, RawLiveValid, AtMost;
    RangeConcat(e, l, nComp, nIndex, p.nComp, p.nIndex);
    AtMostBoth(nComp, p.nComp, l.compCap);
    AtMostBoth(nIndex, p.nIndex, l.compCap);
  }

  lemma PartAppended(e: Engine, l: Layout, nComp: seq<U32>, nIndex: seq<U32>, tensors: seq<Byte>, r: Range, p: Parsed)
    requires GoodShard(e, r, p) && p.layout == l
    requires |nComp| == |nIndex| == r.start && |tensors| == RangeSize(e, l, 0, nComp, nIndex)
    ensures PartAt(e, l, nComp + p.nComp, nIndex + p.nIndex, tensors + p.tensors, r, Shard(l, r, p.nComp, p.nIndex, p.tensors))
  {
    hide RangeSize, Shard, RawLiveValid, AtMost;
    var c, i, t := nComp + p.nComp, nIndex + p.nIndex, tensors + p.tensors;
    RangeConcat(e, l, nComp, nIndex, p.nComp, p.nIndex);
    assert c[..r.start] == nComp && i[..r.start] == nIndex && c[..r.end + 1] == c && i[..r.end + 1] == i;
    assert c[r.start..r.end + 1] == p.nComp && i[r.start..r.end + 1] == p.nIndex;
    assert t[|tensors|..|t|] == p.tensors;
    assert PrefixSize(e, l, c, i, r.start) == |tensors| && PrefixSize(e, l, c, i, r.end + 1) == |t|;
  }

  lemma Append(e: Engine, l: Layout, nComp: seq<U32>, nIndex: seq<U32>, tensors: seq<Byte>,
               route: seq<Range>, files: seq<seq<Byte>>, k: nat, p: Parsed)
    requires k < |route| == |files| && |nComp| == |nIndex| == route[k].start
    requires if k == 0 then tensors == [] else Assembled(e, l, nComp, nIndex, tensors)
    requires forall j :: 0 <= j < k ==> PartAt(e, l, nComp, nIndex, tensors, route[j], files[j])
    requires GoodShard(e, route[k], p) && p.layout == l && l.vocab == e.vocab && (k == 0 ==> route[0].start == 0)
    requires files[k] == Shard(l, route[k], p.nComp, p.nIndex, p.tensors)
    ensures Assembled(e, l, nComp + p.nComp, nIndex + p.nIndex, tensors + p.tensors)
    ensures forall j :: 0 <= j <= k ==>
      PartAt(e, l, nComp + p.nComp, nIndex + p.nIndex, tensors + p.tensors, route[j], files[j])
  {
    hide PartAt, Shard, RawLiveValid;
    if k == 0 { assert RangeSize(e, l, 0, nComp, nIndex) == 0; }
    hide RangeSize;
    AssembledMore(e, l, nComp, nIndex, tensors, route[k], p);
    PartAppended(e, l, nComp, nIndex, tensors, route[k], p);
    forall j | 0 <= j < k
      ensures PartAt(e, l, nComp + p.nComp, nIndex + p.nIndex, tensors + p.tensors, route[j], files[j])
    {
      PartStays(e, l, nComp, nIndex, tensors, route[j], files[j], p);
    }
  }

  /** The shards put together make a session of which they are the parts. */
  lemma AssembledIsCut(e: Engine, route: seq<Range>, files: seq<seq<Byte>>, s: Session)
    requires Covers(route, |e.ratios|) && |files| == |route| && |s.nComp| == |e.ratios|
    requires Assembled(e, s.layout, s.nComp, s.nIndex, s.tensors)
    requires |s.tokens| == s.layout.tokenCount && |s.logits| == 4 * e.vocab
    requires forall j :: 0 <= j < |route| ==> PartAt(e, s.layout, s.nComp, s.nIndex, s.tensors, route[j], files[j])
    ensures CutFrom(e, route, files, s)
  {
    hide RangeSize, Shard, RawLiveValid, AtMost, Covers;
    assert s.nComp[..|s.nComp|] == s.nComp && s.nIndex[..|s.nIndex|] == s.nIndex;
    assert 0 < |e.ratios| by { CoversSome(route, |e.ratios|); }
    assert Consistent(e, s);
    forall j | 0 <= j < |route| ensures ShardAt(e, s, route[j], files[j]) {
      assert PartAt(e, s.layout, s.nComp, s.nIndex, s.tensors, route[j], files[j]);
    }
    ShardsAreCut(e, route, files, s);
  }

  lemma CoversSome(route: seq<Range>, nLayers: nat)
    requires Covers(route, nLayers)
    ensures 0 < nLayers
  {
  }

  /** What has been gathered of session `s` after its first `n` layers. */
  ghost predicate Gathered(e: Engine, s: Session, n: nat, layout: Option<Layout>,
                           nComp: seq<U32>, nIndex: seq<U32>, tensors: seq<Byte>) {
    && Consistent(e, s) && n <= |s.nComp| && (layout.Some? ==> layout.value == s.layout)
    && Offset(e, s, n) <= |s.tensors|
    && nComp == s.nComp[..n] && nIndex == s.nIndex[..n] && tensors == s.tensors[..Offset(e, s, n)]
  }

  lemma GatheredNone(e: Engine, s: Session)
    requires Consistent(e, s)
    ensures Gathered(e, s, 0, None, [], [], [])
  {
    hide RawLiveValid, AtMost;
    OffsetZero(e, s);
  }

  lemma GatheredStep(e: Engine, s: Session, r: Range, layout: Option<Layout>,
                     nComp: seq<U32>, nIndex: seq<U32>, tensors: seq<Byte>)
    requires Gathered(e, s, r.start, layout, nComp, nIndex, tensors) && r.start <= r.end < s.layout.nLayers
    ensures var p := PartOf(e, s, r);
      Gathered(e, s, r.end + 1, Some(s.layout), nComp + p.nComp, nIndex + p.nIndex, tensors + p.tensors)
  {
    hide RangeSize, RawLiveValid, AtMost;
    OffsetsRise(e, s, r.start, r.end + 1);
    OffsetsRise(e, s, r.end + 1, |s.nComp|);
  }

  lemma GatheredAll(e: Engine, s: Session, layout: Option<Layout>, nComp: seq<U32>, nIndex: seq<U32>, tensors: seq<Byte>)
    requires layout.Some? && |nComp| == |e.ratios| && Gathered(e, s, |nComp|, layout, nComp, nIndex, tensors)
    ensures layout.value == s.layout && nComp == s.nComp && nIndex == s.nIndex && tensors == s.tensors
  {
    hide RangeSize, RawLiveValid, AtMost;
    assert s.nComp[..|s.nComp|] == s.nComp && s.nIndex[..|s.nComp|] == s.nIndex;
    assert s.tensors[..|s.tensors|] == s.tensors;
  }

  predicate TokensOk(tokens: seq<U32>, vocab: U32) {
    forall i | 0 <= i < |tokens| :: tokens[i] <= INT_MAX && tokens[i] < vocab
  }

  /** What the loader demands of a payload before it reads the tensors. */
  ghost predicate LayoutOk(e: Engine, ctx: nat, l: Layout) {
    l.nLayers == |e.ratios| && l.ctx <= ctx && l.tokenCount < ctx && l.vocab == e.vocab && RawLiveValid(l)
  }

  ghost predicate BodyOk(e: Engine, s: Session) {
    && |s.nComp| == |s.nIndex| == s.layout.nLayers
    && |s.tokens| == s.layout.tokenCount && TokensOk(s.tokens, e.vocab) && |s.logits| == 4 * s.layout.vocab
    && AtMost(s.nComp, s.layout.compCap) && AtMost(s.nIndex, s.layout.compCap)
  }

  ghost predicate IsHead(e: Engine, ctx: nat, payload: seq<Byte>, s: Session) {
    LayoutOk(e, ctx, s.layout) && BodyOk(e, s) && payload == PayloadOf(s)
  }

  /** A payload after its header words, as the reader takes it apart. */
  ghost predicate HeadBody(body: seq<Byte>, s: Session) {
    var t, n, v := |s.tokens|, |s.nComp|, |s.logits|;
    && 4 * t + v + 8 * n <= |body| && ReadWords(body, t) == s.tokens
    && body[4 * t..][..v] == s.logits
    && ShardBody(body[4 * t..][v..], Parsed(s.layout, s.nComp, s.nIndex, s.tensors))
  }

  lemma HeadReads(payload: seq<Byte>, s: Session)
    requires |s.nComp| == |s.nIndex| && payload == PayloadOf(s)
    ensures |payload| >= 52 && ReadWords(payload, 13) == SessionWords(s.layout)
    ensures HeadBody(payload[52..], s)
  {
    hide Words, ReadWords, ShardBody;
    var inner := Words(s.nComp) + (Words(s.nIndex) + s.tensors);
    TakeWords(SessionWords(s.layout), Words(s.tokens) + (s.logits + inner), payload);
    TakeWords(s.tokens, s.logits + inner, payload[52..]);
    var rest := payload[52..][4 * |s.tokens|..];
    assert rest[..|s.logits|] == s.logits && rest[|s.logits|..] == inner;
    TakeBody(inner, Parsed(s.layout, s.nComp, s.nIndex, s.tensors));
  }

  lemma HeadAssembled(payload: seq<Byte>, s: Session)
    requires |s.nComp| == |s.nIndex| && |payload| >= 52
    requires ReadWords(payload, 13) == SessionWords(s.layout) && HeadBody(payload[52..], s)
    ensures payload == PayloadOf(s)
  {
    hide Words, ReadWords;
    var body, n := payload[52..], |s.nComp|;
    SplitWords(payload, 13);
    SplitWords(body, |s.tokens|);
    var rest := body[4 * |s.tokens|..];
    assert rest == rest[..|s.logits|] + rest[|s.logits|..];
    SplitWords(rest[|s.logits|..], n);
    SplitWords(rest[|s.logits|..][4 * n..], n);
  }

  method ReadLayout(e: Engine, ctx: nat, payload: seq<Byte>) returns (o: Option<Layout>)
    ensures forall l :: o == Some(l) <==>
      LayoutOk(e, ctx, l) && |payload| >= 52 && ReadWords(payload, 13) == SessionWords(l)
  {
    hide ReadWords, RawLiveValid;
    if |payload| < 52 { return None; }
    var h := ReadWords(payload, 13);
    if h[0] != SESSION_MAGIC || h[1] != SESSION_VERSION { return None; }
    var l := Layout(h[2], h[3], h[4], h[5], h[6], h[7], h[8], h[9], h[10], h[11], h[12]);
    assert forall k: Layout :: h == SessionWords(k) ==> k == l;
    if l.nLayers != |e.ratios| || l.ctx > ctx || l.tokenCount >= ctx || l.vocab != e.vocab || !RawLiveValid(l) {
      return None;
    }
    assert h == SessionWords(l);
    o := Some(l);
  }

  method ReadBody(e: Engine, l: Layout, body: seq<Byte>) returns (o: Option<Session>)
    ensures forall s :: o == Some(s) <==> s.layout == l && BodyOk(e, s) && HeadBody(body, s)
  {
    hide ReadWords, AtMost, TokensOk;
    if |body| < 4 * l.tokenCount { return None; }
    var tokens := ReadWords(body, l.tokenCount);
    var rest := body[4 * l.tokenCount..];
    if !TokensOk(tokens, e.vocab) || |rest| < 4 * l.vocab { return None; }
    var logits := rest[..4 * l.vocab];
    var counts := rest[4 * l.vocab..];
    if |counts| < 8 * l.nLayers { return None; }
    var nComp := ReadWords(counts, l.nLayers);
    var nIndex := ReadWords(counts[4 * l.nLayers..], l.nLayers);
    var tensors := counts[4 * l.nLayers..][4 * l.nLayers..];
    if !AtMost(nComp, l.compCap) || !AtMost(nIndex, l.compCap) { return None; }
    o := Some(Session(l, tokens, logits, nComp, nIndex, tensors));
  }

  /** Reads and checks everything before the tensors; what is left over is returned as
      the tensors. It succeeds exactly on the encodings of acceptable heads. */
  method ReadHead(e: Engine, ctx: nat, payload: seq<Byte>) returns (o: Option<Session>)
    ensures forall s :: o == Some(s) <==> IsHead(e, ctx, payload, s)
  {
    hide ReadWords, LayoutOk, PayloadOf, HeadBody, AtMost, TokensOk;
    forall s: Session
      ensures IsHead(e, ctx, payload, s) <==>
        LayoutOk(e, ctx, s.layout) && BodyOk(e, s) && |payload| >= 52
        && ReadWords(payload, 13) == SessionWords(s.layout) && HeadBody(payload[52..], s)
    {
      if IsHead(e, ctx, payload, s) { HeadReads(payload, s); }
      if BodyOk(e, s) && |payload| >= 52 && ReadWords(payload, 13) == SessionWords(s.layout) && HeadBody(payload[52..], s) {
        HeadAssembled(payload, s);
      }
    }
    hide BodyOk, SessionWords, IsHead;
    var layout := ReadLayout(e, ctx, payload);
    if layout.None? { return None; }
    o := ReadBody(e, layout.value, payload[52..]);
  }

  /** The bytes of a layer range, at the range's offset in a session's tensors. */
  ghost predicate ShardAt(e: Engine, s: Session, r: Range, shard: seq<Byte>) {
    && r.start <= r.end < s.layout.nLayers == |e.ratios| == |s.nComp| == |s.nIndex|
    && Offset(e, s, r.start) <= Offset(e, s, r.end + 1) <= |s.tensors|
    && shard == Shard(s.layout, r, s.nComp[r.start..r.end + 1], s.nIndex[r.start..r.end + 1],
                      s.tensors[Offset(e, s, r.start)..Offset(e, s, r.end + 1)])
  }

  /** Cuts one shard off the front of the remaining tensor bytes, layer by layer, and
      fails exactly when they run out. */
  method PrepareShard(e: Engine, s: Session, r: Range, rest: seq<Byte>)
    returns (shard: seq<Byte>, left: Option<seq<Byte>>)
    requires r.start <= r.end < s.layout.nLayers == |e.ratios| == |s.nComp| == |s.nIndex|
    requires |s.tensors| <= U64_MAX && Offset(e, s, r.start) <= |s.tensors| && rest == s.tensors[Offset(e, s, r.start)..]
    ensures left.Some? <==> Offset(e, s, r.end + 1) <= |s.tensors|
    ensures left.Some? ==> ShardAt(e, s, r, shard) && left.value == s.tensors[Offset(e, s, r.end + 1)..]
  {
    hide Words, LayerSize, RangeSize;
    var copied: seq<Byte> := [];
    var remaining := rest;
    shard := [];
    for layer := r.start to r.end + 1
      invariant Offset(e, s, r.start) <= Offset(e, s, layer) <= |s.tensors|
      invariant copied == s.tensors[Offset(e, s, r.start)..Offset(e, s, layer)]
      invariant remaining == s.tensors[Offset(e, s, layer)..]
    {
      OffsetStep(e, s, layer);
      OffsetsRise(e, s, layer + 1, r.end + 1);
      var size := LayerBytes(s.layout.rawLive, s.layout.headDim, s.layout.indexerDim, e.ratios[layer],
                             s.nComp[layer], s.nIndex[layer]);
      if size.None? || |remaining| < size.value { return shard, None; }
      copied, remaining := copied + remaining[..size.value], remaining[size.value..];
    }
    shard := Shard(s.layout, r, s.nComp[r.start..r.end + 1], s.nIndex[r.start..r.end + 1], copied);
    left := Some(remaining);
  }

  lemma OffsetStep(e: Engine, s: Session, layer: nat)
    requires layer < |s.nComp| == |s.nIndex| == |e.ratios|
    ensures Offset(e, s, layer + 1) == Offset(e, s, layer) + SizeAt(e, s.layout, layer, s.nComp[layer], s.nIndex[layer])
  {
    hide LayerSize;
    assert s.nComp[..layer + 1][..layer] == s.nComp[..layer] && s.nIndex[..layer + 1][..layer] == s.nIndex[..layer];
  }

  datatype Loaded = Loaded(tokens: seq<U32>, logits: seq<Byte>, shards: seq<seq<Byte>>)

  /** A payload the loader accepts: an acceptable head and exactly its tensors. */
  ghost predicate IsPayload(e: Engine, ctx: nat, payload: seq<Byte>, s: Session) {
    IsHead(e, ctx, payload, s) && Consistent(e, s)
  }

  /** Splits a payload over a route. It succeeds exactly when the route covers the layers
      and the payload is some session's, and then every shard is that session's. */
  method LoadPayload(e: Engine, ctx: nat, route: seq<Range>, payload: seq<Byte>) returns (o: Option<Loaded>)
    requires route != [] && |payload| <= U64_MAX
    ensures forall s :: Covers(route, |e.ratios|) && IsPayload(e, ctx, payload, s) ==>
      o.Some? && o.value.tokens == s.tokens && o.value.logits == s.logits && CutFrom(e, route, o.value.shards, s)
    ensures o.Some? ==> Covers(route, |e.ratios|) && exists s :: IsPayload(e, ctx, payload, s)
  {
    hide Words, RangeSize, RawLiveValid, AtMost, TokensOk, Shard;
    var ok := ValidateRoute(route, |e.ratios|);
    if !ok { return None; }
    var head := ReadHead(e, ctx, payload);
    if head.None? { return None; }
    var s := head.value;
    assert IsHead(e, ctx, payload, s) && forall t :: IsPayload(e, ctx, payload, t) ==> t == s;
    OffsetZero(e, s);
    var shards: seq<seq<Byte>> := [];
    var remaining := s.tensors;
    for k := 0 to |route|
      invariant |shards| == k
      invariant forall j :: 0 <= j < k ==> ShardAt(e, s, route[j], shards[j])
      invariant var at := if k == 0 then 0 else route[k - 1].end + 1;
        at <= |s.nComp| && Offset(e, s, at) <= |s.tensors| && remaining == s.tensors[Offset(e, s, at)..]
    {
      assert |s.tensors| <= |payload|;
      var shard, left := PrepareShard(e, s, route[k], remaining);
      OffsetsRise(e, s, route[k].end + 1, |s.nComp|);
      if left.None? { return None; }
      shards, remaining := shards + [shard], left.value;
    }
    if remaining != [] { return None; }
    assert Consistent(e, s) && IsPayload(e, ctx, payload, s);
    ShardsAreCut(e, route, shards, s);
    o := Some(Loaded(s.tokens, s.logits, shards));
  }

  lemma OffsetZero(e: Engine, s: Session)
    requires |s.nComp| == |s.nIndex| == |e.ratios|
    ensures Offset(e, s, 0) == 0
  {
    assert s.nComp[..0] == [] && s.nIndex[..0] == [];
    assert RangeSize(e, s.layout, 0, [], []) == 0;
  }

  lemma ShardsAreCut(e: Engine, route: seq<Range>, shards: seq<seq<Byte>>, s: Session)
    requires Consistent(e, s) && Covers(route, s.layout.nLayers) && |shards| == |route|
    requires forall j :: 0 <= j < |route| ==> ShardAt(e, s, route[j], shards[j])
    ensures CutFrom(e, route, shards, s)
  {
    hide RangeSize, Words, Consistent, Covers;
    forall k | 0 <= k < |route| ensures shards[k] == ShardOf(e, s, route[k]) {
      assert ShardAt(e, s, route[k], shards[k]);
    }
  }

  /** Saving under one covering route and loading under any other gives every shard of the
      second exactly its layers of the session, and the same tokens and logits. */
  method Migrate(e: Engine, ctx: nat, from: seq<Range>, files: seq<seq<Byte>>, tokens: seq<U32>, logits: seq<Byte>,
                 to: seq<Range>, ghost s: Session) returns (o: Option<Loaded>)
    requires CutFrom(e, from, files, s) && s.tokens == tokens && s.logits == logits && Covers(to, s.layout.nLayers)
    requires s.layout.ctx <= ctx && s.layout.tokenCount < ctx && TokensOk(tokens, e.vocab)
    requires |PayloadOf(s)| <= U64_MAX
    ensures o.Some? && CutFrom(e, to, o.value.shards, s)
    ensures o.value.tokens == tokens && o.value.logits == logits
  {
    hide RangeSize, Words, RawLiveValid, AtMost, Shard, TokensOk;
    var payload := SavePayload(e, from, files, tokens, logits);
    assert IsPayload(e, ctx, PayloadOf(s), s);
    o := LoadPayload(e, ctx, to, payload.value);
  }
}
