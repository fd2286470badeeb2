/** From a registry to a plan, and from a plan to the checks every hop makes: the WORK
    frame the coordinator builds, the rewrite each hop applies before forwarding it, and
    the routing part of a worker's WORK handler. */
module RoutePlan {
  import opened Bytes
  import opened Options
  import opened RouteSearch
  import opened RouteBlob

  function EntryOf(w: Worker): Entry {
    Entry(w.host, w.port, w.start, w.end, if w.hasOutput then F_OUTPUT_LOGITS else 0)
  }

  function EntriesOf(ws: seq<Worker>): (es: seq<Entry>)
    ensures |es| == |ws|
    ensures forall i :: 0 <= i < |es| ==> es[i] == EntryOf(ws[i])
  {
    seq(|ws|, i requires 0 <= i < |ws| => EntryOf(ws[i]))
  }

  /** Every registered worker passed the HELLO checks and has a C-string host. */
  ghost predicate Registered(c: Local, ws: seq<Worker>) {
    forall i :: 0 <= i < |ws| ==> HelloOk(c, ws[i]) && HostOk(ws[i].host)
  }

  /** A plan's shape: contiguous from the coordinator's slice to the last layer, and
      only the last hop may return logits. */
  ghost predicate PlanOk(c: Local, es: seq<Entry>) {
    && RouteOk(es, c.nLayers)
    && (es != [] ==> es[0].start == c.end + 1 && es[|es| - 1].end + 1 == c.nLayers)
    && (forall i :: 0 <= i < |es| - 1 ==> es[i].flags == 0)
  }

  lemma {:induction false} CompleteIsPlan(c: Local, ws: seq<Worker>, p: seq<Worker>, from: nat)
    requires c.nLayers > 0 && Registered(c, ws)
    requires Complete(ws, c.nLayers - 1, c.canOutputHead, p, from)
    ensures var es := EntriesOf(p);
      && RouteOk(es, c.nLayers)
      && es[0].start == from && es[|es| - 1].end + 1 == c.nLayers
      && (forall i :: 0 <= i < |es| - 1 ==> es[i].flags == 0)
      && (forall i :: 0 <= i < |p| ==> p[i] in ws)
    decreases |p|
  {
    hide RouteOk, CandidateOk;
    assert HelloOk(c, p[0]) && HostOk(p[0].host);
    var tail := EntriesOf(p[1..]);
    if p[0].end < c.nLayers - 1 {
      CompleteIsPlan(c, ws, p[1..], p[0].end + 1);
    } else {
      NoRecords(c.nLayers);
    }
    assert EntriesOf(p) == [EntryOf(p[0])] + tail;
    RouteCons(EntryOf(p[0]), tail, c.nLayers);
  }

  lemma RouteCons(e: Entry, es: seq<Entry>, nLayers: nat)
    requires HostOk(e.host) && EntryOk(e, nLayers) && RouteOk(es, nLayers)
    requires es != [] ==> es[0].start == e.end + 1
    ensures RouteOk([e] + es, nLayers)
  {
    var all := [e] + es;
    assert forall i :: 0 <= i < |es| ==> all[i + 1] == es[i];
  }

  lemma NoRecords(nLayers: nat)
    ensures RouteOk([], nLayers)
  {
  }

  ghost predicate ServedBy(e: Entry, ws: seq<Worker>) { exists w <- ws :: EntryOf(w) == e }

  datatype Plan =
    | Plan(entries: seq<Entry>, blob: seq<Byte>)
    | NotFromZero
    | Incomplete(missing: nat)
    | Unencodable

  /** A route whose records cannot be encoded in 32 bits of length. */
  ghost predicate Oversized(c: Local, ws: seq<Worker>, p: seq<Worker>)
    requires c.nLayers > 0
  {
    Complete(ws, c.nLayers - 1, c.canOutputHead, p, c.end + 1) && RecordBytes(EntriesOf(p)) + RETURN_FIXED > U32_MAX
  }

  /** A route for the layers the coordinator does not run itself. */
  ghost predicate Routed(c: Local, ws: seq<Worker>, p: seq<Worker>)
    requires c.nLayers > 0
  {
    IsRoute(ws, c.nLayers - 1, c.canOutputHead, p, c.end + 1)
  }

  /** Builds the route plan from the sorted worker list. */
  method BuildPlan(c: Local, ws: seq<Worker>) returns (r: Plan)
    requires c.nLayers > 0 && c.end < c.nLayers && Registered(c, ws) && Sorted(ws)
    ensures r.Plan? ==> PlanOk(c, r.entries) && r.blob == Blob(r.entries) && |r.entries| <= U32_MAX
    ensures r.Plan? ==> forall i :: 0 <= i < |r.entries| ==> ServedBy(r.entries[i], ws)
    ensures r.Plan? && r.entries == [] <==>
      c.start == 0 && c.end + 1 == c.nLayers && (c.hasOutput || c.canOutputHead)
    ensures r.NotFromZero? <==> c.start != 0
    ensures r.Incomplete? ==> NoRoute(ws, c.nLayers - 1, c.canOutputHead, c.end + 1)
    ensures r.Incomplete? ==> Answers(ws, c.end + 1, c.nLayers - 1, c.canOutputHead, Missing(r.missing))
    ensures r.Plan? && r.entries != [] ==> exists p :: Routed(c, ws, p) && r.entries == EntriesOf(p)
    ensures r.Unencodable? ==> exists p :: Oversized(c, ws, p)
  {
    hide Complete, Partial, Frontier, Blob, RouteOk, IsRoute, IsStart;
    var last := c.nLayers - 1;
    if c.start != 0 { return NotFromZero; }
    if c.end == last && (c.hasOutput || c.canOutputHead) {
      EmptyPlan(c);
      return Plan([], []);
    }
    var found := FindRoute(ws, c.end + 1, last, c.canOutputHead);
    match found
    case Missing(layer) => return Incomplete(layer);
    case Route(path) =>
      CompleteIsPlan(c, ws, path, c.end + 1);
      CompleteIsNonempty(ws, last, c.canOutputHead, path, c.end + 1);
      var es := EntriesOf(path);
      RouteHosts(es, c.nLayers);
      var built := BuildBlob(es);
      if built.Built? {
        forall i | 0 <= i < |es|
          ensures ServedBy(es[i], ws)
        {
          assert path[i] in ws;
        }
        CountWithin(es);
        assert Routed(c, ws, path);
        return Plan(es, built.blob);
      }
      assert Oversized(c, ws, path);
      return Unencodable;
  }

  lemma {:induction false} CountWithin(es: seq<Entry>)
    ensures |es| <= RecordBytes(es)
  {
    if es != [] { CountWithin(es[..|es| - 1]); }
  }

  lemma CompleteIsNonempty(ws: seq<Worker>, last: nat, head: bool, p: seq<Worker>, from: nat)
    requires Complete(ws, last, head, p, from)
    ensures p != []
  {
  }

  lemma RouteHosts(es: seq<Entry>, nLayers: nat)
    requires RouteOk(es, nLayers)
    ensures forall e <- es :: 0 !in e.host
  {
  }

  lemma EmptyPlan(c: Local)
    ensures PlanOk(c, []) && Blob([]) == []
  {
  }

  /** The routing part of a WORK frame: `payload` is how many bytes follow the fixed
      part, `strayFlags` any flag bit outside the four known ones. */
  datatype Work = Work(model: U32, pos0: U32, nTokens: U32, start: U32, end: U32,
                       inputHc: bool, outputLogits: bool, reset: bool, ackOnly: bool, strayFlags: bool,
                       tokenBytes: U32, hcBytes: U32, hcBits: U32,
                       count: U32, index: U32, blob: seq<Byte>, payload: nat)

  /** What a worker knows about itself; `hcValues` is the hidden row width. */
  datatype WorkerState = WorkerState(model: U32, start: U32, end: U32, hasOutput: bool,
                                     ctx: U32, nLayers: U32, hcValues: nat)

  /** Hidden values a span of tokens carries. */
  function HiddenValues(nTokens: nat, hcValues: nat): nat { nTokens * hcValues }

  function BitsOrDefault(bits: U32): U32 { if bits == 0 then 32 else bits }

  /** Bytes `values` activations take on the wire at 8, 16 or 32 bits each. */
  function WireBytes(bits: U32, values: nat): Option<U32> {
    var b := BitsOrDefault(bits);
    if b !in {8, 16, 32} then None
    else if values * (b / 8) > U32_MAX then None
    else Some(values * (b / 8))
  }

  /** That many bytes exactly: as many bits as the values have, in 32 bits of length. */
  lemma WireBytesIs(bits: U32, nTokens: nat, hcValues: nat, bytes: U32)
    ensures WireBytes(bits, HiddenValues(nTokens, hcValues)) == Some(bytes) <==>
      bits in {0, 8, 16, 32} && 8 * bytes == nTokens * hcValues * (if bits == 0 then 32 else bits)
  {
    WireBytesOf(bits, nTokens * hcValues, bytes);
  }

  lemma WireBytesOf(bits: U32, values: nat, bytes: U32)
    ensures WireBytes(bits, values) == Some(bytes) <==>
      bits in {0, 8, 16, 32} && 8 * bytes == values * (if bits == 0 then 32 else bits)
  {
    match bits
    case 8 => assert values * (8 / 8) == values;
    case 16 => assert values * (16 / 8) == 2 * values;
    case 0 => assert values * (32 / 8) == 4 * values;
    case 32 => assert values * (32 / 8) == 4 * values;
    case _ =>
  }

  function WireBytesFromF32(bits: U32, f32Bytes: U32): Option<U32> {
    if f32Bytes % 4 != 0 then None else WireBytes(bits, f32Bytes / 4)
  }

  datatype Verdict = Accepted(next: Option<Entry>) | Rejected

  /** The routing checks of the WORK handler, in source order. An accepted frame comes
      with the entry to forward to, or none at the last hop. */
  method CheckRouting(s: WorkerState, w: Work) returns (v: Verdict)
    ensures forall es :: Fits(w.blob, w.count, s.nLayers, es) && Consistent(es, s, w) ==>
      v == Accepted(if w.index + 1 < |es| then Some(es[w.index + 1]) else None)
    ensures v.Accepted? ==> exists es :: Fits(w.blob, w.count, s.nLayers, es) && Consistent(es, s, w)
  {
    hide Fits, Blob, RouteOk, Ends;
    forall es | Fits(w.blob, w.count, s.nLayers, es) && Consistent(es, s, w)
      ensures HostsOk(es) && |es| == w.count && es != [] && w.blob == Blob(es)
      ensures Ends(w.blob, w.count, es, Return(RETURN_UPSTREAM, [], 0))
    {
      FitsMeans(w.blob, w.count, s.nLayers, es);
      BlobEnds(es);
    }
    if w.tokenBytes != w.nTokens * 4 || w.tokenBytes + w.hcBytes + |w.blob| != w.payload { return Rejected; }
    if w.count == 0 || w.index >= w.count { return Rejected; }
    if w.model != s.model { return Rejected; }
    if w.start != s.start || w.end != s.end { return Rejected; }
    if w.strayFlags || w.nTokens == 0 { return Rejected; }
    if w.pos0 > s.ctx || w.nTokens > s.ctx - w.pos0 { return Rejected; }
    if w.inputHc != (w.start != 0) { return Rejected; }
    if w.outputLogits && (!s.hasOutput || w.end + 1 != s.nLayers) { return Rejected; }
    var values := HiddenValues(w.nTokens, s.hcValues);
    if values * 4 > U32_MAX { return Rejected; }
    if w.inputHc {
      if WireBytes(w.hcBits, values) != Some(w.hcBytes) { return Rejected; }
    } else if w.hcBytes != 0 {
      return Rejected;
    }
    var hasNext := w.index + 1 < w.count;
    var valid := Validate(w.blob, w.count, s.nLayers);
    if !valid { return Rejected; }
    var current := GetEntry(w.blob, w.count, w.index);
    if current.None? || current.value.start != w.start || current.value.end != w.end { return Rejected; }
    if (current.value.flags == F_OUTPUT_LOGITS) != w.outputLogits { return Rejected; }
    var next: Option<Entry> := None;
    if hasNext {
      next := GetEntry(w.blob, w.count, w.index + 1);
      if next.None? || w.outputLogits { return Rejected; }
    } else {
      var ret := GetReturnTarget(w.blob, w.count);
      if ret.None? || ret.value.kind != RETURN_UPSTREAM { return Rejected; }
    }
    ghost var es :| Fits(w.blob, w.count, s.nLayers, es);
    FitsMeans(w.blob, w.count, s.nLayers, es);
    assert Consistent(es, s, w);
    v := Accepted(next);
  }

  /** What is accepted, no more and no less: the frame asks this worker for exactly its own layers,
      as the route's entry for this index says, with hidden state of the right size. */
  ghost predicate Consistent(es: seq<Entry>, s: WorkerState, w: Work) {
    && w.model == s.model && w.start == s.start && w.end == s.end
    && 0 < w.nTokens && w.pos0 + w.nTokens <= s.ctx
    && w.index < |es| == w.count
    && es[w.index].start == w.start && es[w.index].end == w.end
    && (es[w.index].flags == F_OUTPUT_LOGITS <==> w.outputLogits)
    && (w.outputLogits ==> s.hasOutput && w.index + 1 == w.count && w.end + 1 == s.nLayers)
    && w.inputHc == (w.start != 0)
    && HiddenValues(w.nTokens, s.hcValues) * 4 <= U32_MAX
    && (if w.inputHc then WireBytes(w.hcBits, HiddenValues(w.nTokens, s.hcValues)) == Some(w.hcBytes) else w.hcBytes == 0)
    && w.tokenBytes == 4 * w.nTokens && w.payload == w.tokenBytes + w.hcBytes + |w.blob| && !w.strayFlags
  }

  /** A frame on its way along the plan `es`, arriving at the worker of hop `i`. */
  ghost predicate Honest(es: seq<Entry>, s: WorkerState, i: nat, w: Work) {
    && RouteOk(es, s.nLayers) && i < |es| <= U32_MAX && w.blob == Blob(es)
    && (forall j :: 0 <= j < |es| - 1 ==> es[j].flags == 0)
    && 0 < es[0].start
    && (w.index, w.count) == (i, |es|)
    && (s.start, s.end, s.hasOutput) == (es[i].start, es[i].end, es[i].flags == F_OUTPUT_LOGITS)
    && (w.start, w.end, w.outputLogits) == (es[i].start, es[i].end, es[i].flags == F_OUTPUT_LOGITS)
    && w.model == s.model && !w.strayFlags && w.inputHc
    && 0 < w.nTokens && w.pos0 + w.nTokens <= s.ctx
    && w.tokenBytes == 4 * w.nTokens && w.payload == w.tokenBytes + w.hcBytes + |w.blob|
    && HiddenValues(w.nTokens, s.hcValues) * 4 <= U32_MAX
    && WireBytes(w.hcBits, HiddenValues(w.nTokens, s.hcValues)) == Some(w.hcBytes)
  }

  lemma HonestFits(es: seq<Entry>, s: WorkerState, i: nat, w: Work)
    requires Honest(es, s, i, w)
    ensures Fits(w.blob, w.count, s.nLayers, es) && Consistent(es, s, w) && i == w.index
    ensures HostsOk(es) && es != [] && w.blob == Blob(es)
  {
    hide Blob;
    StartsRise(es, s.nLayers, i);
  }

  lemma {:induction false} StartsRise(es: seq<Entry>, nLayers: nat, i: nat)
    requires RouteOk(es, nLayers) && i < |es|
    ensures es[0].start <= es[i].start
  {
    if i > 0 {
      StartsRise(es, nLayers, i - 1);
      assert EntryOk(es[i - 1], nLayers);
    }
  }

  lemma FitsMeans(blob: seq<Byte>, count: nat, nLayers: nat, es: seq<Entry>)
    requires Fits(blob, count, nLayers, es)
    ensures HostsOk(es) && |es| == count && blob == Blob(es)
  {
  }

  /** A span the coordinator may send: it fits every worker's context and its hidden
      rows fit a frame, as the coordinator checks before it starts. */
  datatype Span = Span(model: U32, pos0: U32, nTokens: U32, reset: bool, ackOnly: bool, bits: U32, hcValues: nat)

  ghost predicate SpanOk(p: Span) {
    && 0 < p.nTokens && 4 * p.nTokens <= U32_MAX
    && HiddenValues(p.nTokens, p.hcValues) * 4 <= U32_MAX
    && BitsOrDefault(p.bits) in {8, 16, 32}
  }

  /** Byte counts of the hidden rows: as floats, and on the wire. */
  function HiddenBytes(p: Span): U32
    requires SpanOk(p)
  {
    HiddenValues(p.nTokens, p.hcValues) * 4
  }

  lemma WireSize(p: Span)
    requires SpanOk(p)
    ensures WireBytesFromF32(p.bits, HiddenBytes(p)) == WireBytes(p.bits, HiddenValues(p.nTokens, p.hcValues))
    ensures WireBytesFromF32(p.bits, HiddenBytes(p)).Some?
    ensures WireBytesFromF32(BitsOrDefault(p.bits), HiddenBytes(p)) == WireBytesFromF32(p.bits, HiddenBytes(p))
  {
    hide HiddenValues;
  }

  /** The frame the coordinator sends to the first hop. */
  function FirstWork(es: seq<Entry>, p: Span): Work
    requires es != [] && |es| <= U32_MAX && HostsOk(es) && SpanOk(p)
    requires WireBytesFromF32(p.bits, HiddenBytes(p)).Some?
  {
    var hc := WireBytesFromF32(p.bits, HiddenBytes(p)).value;
    Work(p.model, p.pos0, p.nTokens, es[0].start, es[0].end,
         true, es[0].flags == F_OUTPUT_LOGITS, p.reset, p.ackOnly, false,
         4 * p.nTokens, hc, p.bits, |es|, 0, Blob(es), 4 * p.nTokens + hc + |Blob(es)|)
  }

  /** The rewrite a hop applies before it forwards to `next`. */
  function ForwardWork(w: Work, next: Entry, hiddenBytes: U32): Option<Work>
    requires w.index < U32_MAX
  {
    var bits := BitsOrDefault(w.hcBits);
    var wire := WireBytesFromF32(bits, hiddenBytes);
    if wire.None? then None
    else Some(w.(start := next.start, end := next.end, index := w.index + 1, inputHc := true,
                 hcBits := bits, hcBytes := wire.value,
                 outputLogits := next.flags == F_OUTPUT_LOGITS,
                 payload := w.tokenBytes + wire.value + |w.blob|))
  }

  /** The workers along a plan are the ones that registered for its entries, and their
      contexts hold the span. */
  ghost predicate Serving(c: Local, es: seq<Entry>, p: Span, ss: seq<WorkerState>) {
    && |ss| == |es|
    && forall i :: 0 <= i < |ss| ==>
         && (ss[i].start, ss[i].end, ss[i].hasOutput) == (es[i].start, es[i].end, es[i].flags == F_OUTPUT_LOGITS)
         && ss[i].model == p.model && ss[i].nLayers == c.nLayers && ss[i].hcValues == p.hcValues
         && p.pos0 + p.nTokens <= ss[i].ctx
  }

  /** One frame per hop: the coordinator's, then each hop's rewrite of the one before. */
  ghost predicate Journey(es: seq<Entry>, p: Span, ws: seq<Work>)
    requires es != [] && |es| <= U32_MAX && HostsOk(es) && SpanOk(p)
  {
    && |ws| == |es|
    && WireBytesFromF32(p.bits, HiddenBytes(p)).Some?
    && ws[0] == FirstWork(es, p)
    && forall i :: 0 <= i < |ws| - 1 ==>
         ws[i].index < U32_MAX && ForwardWork(ws[i], es[i + 1], HiddenBytes(p)) == Some(ws[i + 1])
  }

  lemma FirstIsHonest(c: Local, es: seq<Entry>, p: Span, s: WorkerState)
    requires PlanOk(c, es) && es != [] && |es| <= U32_MAX && SpanOk(p) && Serving(c, es[..1], p, [s])
    ensures WireBytesFromF32(p.bits, HiddenBytes(p)).Some? && Honest(es, s, 0, FirstWork(es, p))
  {
    hide Blob, HiddenValues, RouteOk;
    HostsOfPlan(c, es);
    WireSize(p);
    assert [s][0] == s && es[..1][0] == es[0];
  }

  lemma HostsOfPlan(c: Local, es: seq<Entry>)
    requires PlanOk(c, es)
    ensures HostsOk(es)
  {
  }

  lemma ForwardIsHonest(es: seq<Entry>, p: Span, i: nat, s: WorkerState, w: Work, s': WorkerState)
    requires Honest(es, s, i, w) && i + 1 < |es| && SpanOk(p)
    requires w.nTokens == p.nTokens && BitsOrDefault(w.hcBits) == BitsOrDefault(p.bits) && s.hcValues == p.hcValues
    requires (s'.start, s'.end, s'.hasOutput) == (es[i + 1].start, es[i + 1].end, es[i + 1].flags == F_OUTPUT_LOGITS)
    requires s'.model == s.model && s'.nLayers == s.nLayers && s'.hcValues == s.hcValues
    requires w.pos0 + w.nTokens <= s'.ctx
    ensures var f := ForwardWork(w, es[i + 1], HiddenBytes(p));
      f.Some? && Honest(es, s', i + 1, f.value)
  {
    hide Blob, HiddenValues, RouteOk;
    WireSize(p);
  }

  /** An honest frame is honest at every hop, so no worker on the plan rejects it on
      routing grounds, and each forwards to the plan's next entry. */
  lemma {:induction false} EveryHopIsHonest(c: Local, es: seq<Entry>, p: Span, ss: seq<WorkerState>, ws: seq<Work>, i: nat)
    requires PlanOk(c, es) && es != [] && |es| <= U32_MAX && HostsOk(es) && SpanOk(p)
    requires Serving(c, es, p, ss) && Journey(es, p, ws) && i < |es|
    ensures Honest(es, ss[i], i, ws[i])
    ensures (ws[i].nTokens, ws[i].pos0, ws[i].reset, ws[i].ackOnly) == (p.nTokens, p.pos0, p.reset, p.ackOnly)
    ensures BitsOrDefault(ws[i].hcBits) == BitsOrDefault(p.bits)
  {
    hide Honest, PlanOk, Blob, HiddenValues, HiddenBytes;
    if i == 0 {
      assert es[..1][0] == es[0];
      FirstIsHonest(c, es, p, ss[0]);
    } else {
      EveryHopIsHonest(c, es, p, ss, ws, i - 1);
      assert ForwardWork(ws[i - 1], es[i - 1 + 1], HiddenBytes(p)) == Some(ws[i - 1 + 1]);
      ForwardIsHonest(es, p, i - 1, ss[i - 1], ws[i - 1], ss[i]);
    }
  }

  /** A worker's own state is what its HELLO announced. */
  function StateOf(w: Worker, hcValues: nat): WorkerState {
    WorkerState(w.model, w.start, w.end, w.hasOutput, w.ctx, w.nLayers, hcValues)
  }

  function StatesOf(path: seq<Worker>, hcValues: nat): (ss: seq<WorkerState>)
    ensures |ss| == |path| && forall i :: 0 <= i < |ss| ==> ss[i] == StateOf(path[i], hcValues)
  {
    seq(|path|, i requires 0 <= i < |path| => StateOf(path[i], hcValues))
  }

  /** A span that the context of every registered worker holds. */
  ghost predicate SpanFits(c: Local, ws: seq<Worker>, p: Span) {
    SpanOk(p) && p.model == c.model && forall w <- ws :: p.pos0 + p.nTokens <= w.ctx
  }

  /** The HELLO check on contexts makes that true of every span within the coordinator's
      own context, if it has one. */
  lemma HelloCoversContext(c: Local, ws: seq<Worker>, p: Span)
    requires Registered(c, ws) && SpanOk(p) && p.model == c.model && c.ctx != 0 && p.pos0 + p.nTokens <= c.ctx
    ensures SpanFits(c, ws, p)
  {
    forall w | w in ws ensures HelloOk(c, w) {
      var i :| 0 <= i < |ws| && ws[i] == w;
    }
  }

  /** Workers that passed the HELLO checks serve the plan made of their entries. */
  lemma RegisteredServe(c: Local, ws: seq<Worker>, path: seq<Worker>, p: Span)
    requires Registered(c, ws) && (forall w <- path :: w in ws) && SpanFits(c, ws, p)
    ensures Serving(c, EntriesOf(path), p, StatesOf(path, p.hcValues))
  {
    forall i | 0 <= i < |path|
      ensures HelloOk(c, path[i])
    {
      assert path[i] in ws;
    }
  }

  /** The worker behind each entry of a served plan. */
  lemma {:induction false} PathOf(es: seq<Entry>, ws: seq<Worker>) returns (path: seq<Worker>)
    requires forall i :: 0 <= i < |es| ==> ServedBy(es[i], ws)
    ensures EntriesOf(path) == es && forall w <- path :: w in ws
  {
    path := [];
    if es != [] {
      var n := |es| - 1;
      var rest := PathOf(es[..n], ws);
      assert ServedBy(es[n], ws);
      var w :| w in ws && EntryOf(w) == es[n];
      path := rest + [w];
      assert es == es[..n] + [es[n]];
    }
  }

  /** The frames of a journey exist: no hop's rewrite fails. */
  lemma {:induction false} JourneyExists(es: seq<Entry>, p: Span, n: nat) returns (ws: seq<Work>)
    requires es != [] && 0 < n <= |es| <= U32_MAX && HostsOk(es) && SpanOk(p)
    ensures WireBytesFromF32(p.bits, HiddenBytes(p)).Some?
    ensures |ws| == n && ws[0] == FirstWork(es, p) && ws[n - 1].index == n - 1
    ensures BitsOrDefault(ws[n - 1].hcBits) == BitsOrDefault(p.bits)
    ensures forall i :: 0 <= i < n - 1 ==>
      ws[i].index < U32_MAX && ForwardWork(ws[i], es[i + 1], HiddenBytes(p)) == Some(ws[i + 1])
  {
    hide Blob, HiddenBytes, WireBytesFromF32;
    WireSize(p);
    if n == 1 {
      ws := [FirstWork(es, p)];
    } else {
      var before := JourneyExists(es, p, n - 1);
      var next := ForwardWork(before[n - 2], es[n - 1], HiddenBytes(p));
      BitsAgree(before[n - 2].hcBits, p);
      ws := before + [next.value];
    }
  }

  lemma BitsAgree(bits: U32, p: Span)
    requires SpanOk(p) && BitsOrDefault(bits) == BitsOrDefault(p.bits)
    ensures WireBytesFromF32(BitsOrDefault(bits), HiddenBytes(p)).Some?
  {
    WireSize(p);
  }

  /** Any plan served by workers that passed the HELLO checks, and any span their contexts
      hold: the frames exist, and each is honest at its own worker. */
  lemma PlanIsHonest(c: Local, ws: seq<Worker>, es: seq<Entry>, p: Span) returns (path: seq<Worker>, frames: seq<Work>)
    requires Registered(c, ws) && PlanOk(c, es) && es != [] && |es| <= U32_MAX && SpanFits(c, ws, p)
    requires forall i :: 0 <= i < |es| ==> ServedBy(es[i], ws)
    ensures |path| == |frames| == |es| && EntriesOf(path) == es && (forall w <- path :: w in ws)
    ensures HostsOk(es) && Journey(es, p, frames)
    ensures forall i :: 0 <= i < |es| ==> Honest(es, StateOf(path[i], p.hcValues), i, frames[i])
    ensures forall i :: 0 <= i < |es| ==> (frames[i].pos0, frames[i].nTokens) == (p.pos0, p.nTokens)
  {
    hide Honest, Serving, Registered, Blob, HiddenBytes, FirstWork, ForwardWork, PlanOk;
    HostsOfPlan(c, es);
    path := PathOf(es, ws);
    RegisteredServe(c, ws, path, p);
    frames := JourneyExists(es, p, |es|);
    assert Journey(es, p, frames);
    forall i | 0 <= i < |es|
      ensures Honest(es, StateOf(path[i], p.hcValues), i, frames[i])
      ensures (frames[i].pos0, frames[i].nTokens) == (p.pos0, p.nTokens)
    {
      EveryHopIsHonest(c, es, p, StatesOf(path, p.hcValues), frames, i);
    }
  }

  /** The whole of it: build a plan from registered workers, send a span along it with
      every hop's own checks and rewrite, and count the hops that accept. Whenever there
      is a plan, all of them do. */
  method SendAlongPlan(c: Local, ws: seq<Worker>, p: Span) returns (plan: Plan, accepted: nat)
    requires c.nLayers > 0 && c.end < c.nLayers && Registered(c, ws) && Sorted(ws) && SpanFits(c, ws, p)
    ensures plan.Plan? ==> PlanOk(c, plan.entries) && accepted == |plan.entries|
  {
    hide Honest, Registered, Blob, PlanOk, Sorted, HiddenBytes, RouteOk;
    plan := BuildPlan(c, ws);
    accepted := 0;
    if !plan.Plan? || plan.entries == [] { return; }
    var es := plan.entries;
    ghost var path, frames := PlanIsHonest(c, ws, es, p);
    var w := FirstWork(es, p);
    while accepted < |es|
      invariant accepted <= |es| && (accepted < |es| ==> w == frames[accepted])
    {
      var server := FindServer(ws, es[accepted], path[accepted]);
      HonestForAnyServer(c, ws, es, p, accepted, path[accepted], server, w);
      HonestFits(es, StateOf(server, p.hcValues), accepted, w);
      var verdict := CheckRouting(StateOf(server, p.hcValues), w);
      if verdict.Rejected? { return; }
      if verdict.next.Some? {
        var forwarded := ForwardWork(w, verdict.next.value, HiddenBytes(p));
        w := forwarded.value;
      }
      accepted := accepted + 1;
    }
  }

  /** Connecting to an entry reaches a registered worker with that address and range. */
  method FindServer(ws: seq<Worker>, e: Entry, ghost known: Worker) returns (w: Worker)
    requires known in ws && EntryOf(known) == e
    ensures w in ws && EntryOf(w) == e
  {
    var i := 0;
    while EntryOf(ws[i]) != e
      invariant i < |ws| && known in ws[i..]
      decreases |ws| - i
    {
      assert ws[i..] == [ws[i]] + ws[i + 1..];
      i := i + 1;
    }
    w := ws[i];
  }

  lemma HonestForAnyServer(c: Local, ws: seq<Worker>, es: seq<Entry>, p: Span, i: nat, a: Worker, b: Worker, w: Work)
    requires Registered(c, ws) && a in ws && b in ws && EntryOf(a) == EntryOf(b) && SpanFits(c, ws, p)
    requires Honest(es, StateOf(a, p.hcValues), i, w) && (w.pos0, w.nTokens) == (p.pos0, p.nTokens)
    ensures Honest(es, StateOf(b, p.hcValues), i, w)
  {
  }
}
