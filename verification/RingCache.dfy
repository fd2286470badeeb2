/** The sliding-window KV ring of the Gemma-4 and MiMo plans: position p is written to
    slot p % rows, a resume drops a branch's tail without touching the rows, and a
    restore or a fork brings rows in from outside. The model keeps, beside each row,
    the position it was written for; the code has no such tag. */
module RingCache {
  import opened Modular
  import opened Attention
  import opened Softmax

  datatype Cell = Cell(tag: int, row: Row)

  /** `window`: positions a query reads, itself included; `rows`: ring slots; `block`:
      the widest block one forward writes; `ctx`: the largest position. */
  datatype Plan = Plan(window: nat, rows: nat, block: nat, ctx: nat) {
    predicate Wide() {
      && window > 0 && rows > 0 && block > 0
      && (window + block <= rows + 1 || ctx <= rows)
    }
  }

  const G4_WINDOW: nat := 1024
  const G4_MTP_DRAFTS: nat := 6
  const M2_WINDOW: nat := 128
  const MIMO2_LAYERS: nat := 48

  predicate GemmaIsFull(layer: nat) { layer in {5, 11, 17, 23, 29} }

  function GemmaTokenRows(cap: nat): nat { if cap < G4_MTP_DRAFTS + 1 then G4_MTP_DRAFTS + 1 else cap }

  function GemmaKvRows(layer: nat, ctx: nat, chunk: nat): nat {
    if GemmaIsFull(layer) then ctx
    else
      var rows := G4_WINDOW + GemmaTokenRows(chunk);
      if rows < ctx then rows else ctx
  }

  predicate MimoIsFull(layer: nat) { layer == 0 || (layer < MIMO2_LAYERS && layer % 6 == 5) }

  function MimoCapacity(layer: nat, ctx: nat, cap: nat): nat
    requires cap > 0
  {
    if MimoIsFull(layer) then ctx
    else
      var needed := M2_WINDOW + cap - 1;
      if needed < ctx then needed else ctx
  }

  /** The window and the ring a layer's kernels are given. A full layer reads its whole
      history, window 0; Gemma's also is stored by absolute position, ring 0. */
  function GemmaWindow(layer: nat): nat { if GemmaIsFull(layer) then 0 else G4_WINDOW }

  function GemmaRing(layer: nat, ctx: nat, chunk: nat): nat {
    if GemmaIsFull(layer) then 0 else GemmaKvRows(layer, ctx, chunk)
  }

  function MimoWindow(layer: nat): nat { if MimoIsFull(layer) then 0 else M2_WINDOW }

  /** A query that reads its whole history needs a window of the whole context. */
  function NeededWindow(window: nat, ctx: nat): nat { if window == 0 then ctx else window }

  function GemmaPlan(layer: nat, ctx: nat, chunk: nat): Plan {
    Plan(NeededWindow(GemmaWindow(layer), ctx), GemmaKvRows(layer, ctx, chunk), GemmaTokenRows(chunk), ctx)
  }

  function MimoPlan(layer: nat, ctx: nat, cap: nat): Plan
    requires cap > 0
  {
    Plan(NeededWindow(MimoWindow(layer), ctx), MimoCapacity(layer, ctx, cap), cap, ctx)
  }

  function AtMost(a: nat, b: nat): nat { if a < b then a else b }

  /** How many rows each layer of each model caches, by the layers' numbers. */
  lemma PlansAreWide(layer: nat, ctx: nat, cap: nat)
    requires ctx > 0 && cap > 0
    ensures GemmaPlan(layer, ctx, cap).Wide() && MimoPlan(layer, ctx, cap).Wide()
    ensures layer < 30 ==> GemmaPlan(layer, ctx, cap).rows
                           == if layer % 6 == 5 then ctx else AtMost(1024 + Max(cap, 7), ctx)
    ensures MimoPlan(layer, ctx, cap).rows
            == if layer == 0 || (layer < 48 && layer % 6 == 5) then ctx else AtMost(127 + cap, ctx)
    ensures GemmaPlan(layer, ctx, cap).block == Max(cap, 7) && MimoPlan(layer, ctx, cap).block == cap
    ensures GemmaPlan(layer, ctx, cap).ctx == MimoPlan(layer, ctx, cap).ctx == ctx
  {
  }

  /** Whether the ring, written up to `high`, still holds the window under `k`. */
  predicate RingKeeps(c: Plan, high: nat, restored: nat, k: nat) {
    if k < restored then false
    else high <= k || high <= c.rows || (c.rows > c.window && high - k <= c.rows - c.window)
  }

  /** `branch` is the row each position of the live branch was computed to; the cells
      are what the cache really holds. */
  datatype State = State(cells: seq<Cell>, position: nat, high: nat, restored: nat,
                         failed: bool, branch: seq<Row>)

  function Max(a: nat, b: nat): nat { if a < b then b else a }

  function Tagged(first: nat, rows: seq<Row>): (t: seq<Cell>)
    ensures |t| == |rows|
    ensures forall i :: 0 <= i < |t| ==> t[i] == Cell(first + i, rows[i])
  {
    seq(|rows|, i requires 0 <= i < |rows| => Cell(first + i, rows[i]))
  }

  /** The cache after a block is stored row by row at its positions' slots. */
  function Written<T>(cells: seq<T>, first: nat, block: seq<T>): (w: seq<T>)
    requires |cells| > 0
    ensures |w| == |cells|
  {
    if block == [] then cells
    else
      var n := |block| - 1;
      Written(cells, first, block[..n])[Mod(first + n, |cells|) := block[n]]
  }

  /** The store loop of one forward, in place. */
  method StoreBlock<T>(ring: array<T>, first: nat, block: seq<T>)
    requires ring.Length > 0
    modifies ring
    ensures ring[..] == Written(old(ring[..]), first, block)
  {
    for r := 0 to |block|
      invariant ring[..] == Written(old(ring[..]), first, block[..r])
    {
      assert block[..r + 1][..r] == block[..r];
      ring[Mod(first + r, ring.Length)] := block[r];
    }
    assert block[..|block|] == block;
  }

  datatype Event =
    | Forward(rows: seq<Row>)
    | FailedForward(left: seq<Cell>)
    | Resume(k: nat)
    | Fork(k: nat, other: seq<Cell>)
    | Restore(cells: seq<Cell>, rows: seq<Row>)
    | Reset

  /** What the code checks before each step; a failed forward admits only a reset or a
      restore. A restore must bring the window under its frontier. */
  ghost predicate Enabled(c: Plan, s: State, ev: Event)
    requires c.rows > 0
  {
    && |s.cells| == c.rows && |s.branch| == s.position
    && match ev
    case Forward(rows) => !s.failed && 0 < |rows| <= c.block && s.position + |rows| <= c.ctx
    case FailedForward(left) => !s.failed && |left| == c.rows
    case Resume(k) => !s.failed && k <= s.position && (k == s.position || RingKeeps(c, s.high, s.restored, k))
    case Fork(k, other) =>
      !s.failed && k <= s.position && RingKeeps(c, s.high, s.restored, k) && |other| == c.rows
    case Restore(cells, rows) =>
      && |cells| == c.rows && |rows| <= c.ctx
      && (forall p: nat :: p < |rows| <= p + c.window ==>
            cells[Mod(p, c.rows)] == Cell(p, rows[p]))
    case Reset => true
  }

  function Step(c: Plan, s: State, ev: Event): State
    requires c.rows > 0 && Enabled(c, s, ev)
  {
    match ev
    case Forward(rows) =>
      var end := s.position + |rows|;
      s.(cells := Written(s.cells, s.position, Tagged(s.position, rows)),
         position := end, high := Max(s.high, end), branch := s.branch + rows)
    case FailedForward(left) => s.(cells := left, failed := true)
    case Resume(k) => s.(position := k, branch := s.branch[..k])
    case Fork(k, other) =>
      var n := if k < c.rows then k else c.rows;
      s.(cells := s.cells[..n] + other[n..], position := k, branch := s.branch[..k])
    case Restore(cells, rows) => State(cells, |rows|, |rows|, |rows|, false, rows)
    case Reset => s.(position := 0, high := 0, restored := 0, failed := false, branch := [])
  }

  /** Position `p` of the live branch still sits in its slot, with the branch's row. */
  ghost predicate Intact(c: Plan, s: State, p: nat)
    requires c.rows > 0 && |s.cells| == c.rows && p < |s.branch|
  {
    s.cells[Mod(p, c.rows)] == Cell(p, s.branch[p])
  }

  ghost predicate Shaped(c: Plan, s: State) {
    && c.Wide() && |s.cells| == c.rows && |s.branch| == s.position
    && s.restored <= s.position <= s.high <= c.ctx
  }

  /** Rows under the live frontier are intact exactly as far back as the high-water
      mark has not lapped them; the ring always holds the window under the frontier. */
  ghost predicate Inv(c: Plan, s: State) {
    && Shaped(c, s)
    && (!s.failed ==>
          && RingKeeps(c, s.high, s.restored, s.position)
          && (forall p: nat :: p < s.position && s.restored <= p + c.window && s.high <= p + c.rows ==>
                Intact(c, s, p))
          && (forall p: nat :: p < s.position && s.restored <= p + c.window && p + c.rows < s.high ==>
                s.cells[Mod(p, c.rows)].tag > p))
  }

  /** A block no longer than the ring: its own positions read back, and a slot none of
      them maps to is untouched. */
  lemma {:induction false} WrittenAt<T>(cells: seq<T>, first: nat, block: seq<T>, i: nat)
    requires i < |block| <= |cells|
    ensures Written(cells, first, block)[Mod(first + i, |cells|)] == block[i]
  {
    hide Mod;
    var n := |block| - 1;
    if i < n {
      WrittenAt(cells, first, block[..n], i);
      ModApart(first + i, first + n, |cells|);
    }
  }

  lemma {:induction false} WrittenElsewhere<T>(cells: seq<T>, first: nat, block: seq<T>, p: nat)
    requires p < first && first + |block| <= p + |cells|
    ensures Written(cells, first, block)[Mod(p, |cells|)] == cells[Mod(p, |cells|)]
  {
    hide Mod;
    if block != [] {
      var n := |block| - 1;
      WrittenElsewhere(cells, first, block[..n], p);
      ModApart(p, first + n, |cells|);
    }
  }

  /** Storing a block never lowers a slot's tag below what `p` needs to be lapped. */
  lemma {:induction false} WrittenTags(cells: seq<Cell>, first: nat, rows: seq<Row>, n: nat, slot: nat, p: nat)
    requires slot < |cells| && n <= |rows| && p < first && cells[slot].tag > p
    ensures Written(cells, first, Tagged(first, rows)[..n])[slot].tag > p
    decreases n
  {
    hide Mod;
    if n > 0 {
      assert Tagged(first, rows)[..n][..n - 1] == Tagged(first, rows)[..n - 1];
      WrittenTags(cells, first, rows, n - 1, slot, p);
    }
  }

  lemma ForwardKeepsIntact(c: Plan, s: State, rows: seq<Row>, p: nat)
    requires Inv(c, s) && Enabled(c, s, Forward(rows)) && |rows| <= c.rows
    requires p < s.position + |rows| && s.restored <= p + c.window
    requires Step(c, s, Forward(rows)).high <= p + c.rows
    ensures Intact(c, Step(c, s, Forward(rows)), p)
  {
    hide Mod;
    var block := Tagged(s.position, rows);
    if p < s.position {
      assert Intact(c, s, p);
      WrittenElsewhere(s.cells, s.position, block, p);
    } else {
      WrittenAt(s.cells, s.position, block, p - s.position);
    }
  }

  lemma ForwardLaps(c: Plan, s: State, rows: seq<Row>, p: nat)
    requires Inv(c, s) && Enabled(c, s, Forward(rows)) && |rows| <= c.rows
    requires p < s.position + |rows| && s.restored <= p + c.window
    requires p + c.rows < Step(c, s, Forward(rows)).high
    ensures Step(c, s, Forward(rows)).cells[Mod(p, c.rows)].tag > p
  {
    hide Mod;
    var block := Tagged(s.position, rows);
    if p + c.rows >= s.high {
      ModAdd(p, c.rows, c.rows);
      WrittenAt(s.cells, s.position, block, p + c.rows - s.position);
    } else {
      assert block[..|rows|] == block;
      WrittenTags(s.cells, s.position, rows, |rows|, Mod(p, c.rows), p);
    }
  }

  lemma ForwardKeepsInv(c: Plan, s: State, rows: seq<Row>)
    requires Inv(c, s) && Enabled(c, s, Forward(rows))
    ensures Inv(c, Step(c, s, Forward(rows)))
  {
    hide Mod, Intact, Written;
    var s' := Step(c, s, Forward(rows));
    forall p: nat | p < s'.position && s.restored <= p + c.window && s'.high <= p + c.rows
      ensures Intact(c, s', p)
    {
      ForwardKeepsIntact(c, s, rows, p);
    }
    forall p: nat | p < s'.position && s.restored <= p + c.window && p + c.rows < s'.high
      ensures s'.cells[Mod(p, c.rows)].tag > p
    {
      ForwardLaps(c, s, rows, p);
    }
  }

  /** Dropping a tail, in place or into a copy that shares the slots under `k`. */
  lemma TruncationKeepsInv(c: Plan, s: State, s': State, k: nat)
    requires Inv(c, s) && !s.failed && k <= s.position && RingKeeps(c, s.high, s.restored, k)
    requires |s'.cells| == c.rows && s' == s.(position := k, branch := s.branch[..k], cells := s'.cells)
    requires forall p: nat :: p < k ==> s'.cells[Mod(p, c.rows)] == s.cells[Mod(p, c.rows)]
    ensures Inv(c, s')
  {
    hide Mod;
    forall p: nat | p < k && s.restored <= p + c.window && s.high <= p + c.rows
      ensures Intact(c, s', p)
    {
      assert Intact(c, s, p);
    }
  }

  lemma StepKeepsInv(c: Plan, s: State, ev: Event)
    requires Inv(c, s) && Enabled(c, s, ev)
    ensures Inv(c, Step(c, s, ev))
  {
    match ev
    case Forward(rows) => ForwardKeepsInv(c, s, rows);
    case Fork(k, other) =>
      var s' := Step(c, s, ev);
      forall p: nat | p < k
        ensures s'.cells[Mod(p, c.rows)] == s.cells[Mod(p, c.rows)]
      {
        if k < c.rows { ModSmall(p, c.rows); }
      }
      TruncationKeepsInv(c, s, s', k);
    case Resume(k) => TruncationKeepsInv(c, s, Step(c, s, ev), k);
    case _ => hide Mod;
  }

  ghost predicate Next(c: Plan, s: State, s': State)
    requires c.rows > 0
  {
    exists ev :: Enabled(c, s, ev) && s' == Step(c, s, ev)
  }

  /** A history of the cache, from any initial contents. */
  ghost predicate IsRun(c: Plan, states: seq<State>)
    requires c.rows > 0
  {
    && |states| > 0
    && |states[0].cells| == c.rows && states[0] == State(states[0].cells, 0, 0, 0, false, [])
    && forall i :: 0 <= i < |states| - 1 ==> Next(c, states[i], states[i + 1])
  }

  lemma {:induction false} RunKeepsInv(c: Plan, states: seq<State>, i: nat)
    requires c.Wide() && IsRun(c, states) && i < |states|
    ensures Inv(c, states[i])
  {
    hide Inv, Step, Enabled;
    if i == 0 {
      InitialInv(c, states[0]);
    } else {
      RunKeepsInv(c, states, i - 1);
      assert Next(c, states[i - 1], states[i - 1 + 1]);
      var ev :| Enabled(c, states[i - 1], ev) && states[i] == Step(c, states[i - 1], ev);
      StepKeepsInv(c, states[i - 1], ev);
    }
  }

  lemma InitialInv(c: Plan, s: State)
    requires c.Wide() && |s.cells| == c.rows && s == State(s.cells, 0, 0, 0, false, [])
    ensures Inv(c, s)
  {
  }

  /** The resume rule is exact: it admits `k` if and only if every row of the window
      under `k` still sits in its slot with the live branch's contents. */
  lemma ResumeRuleIsExact(c: Plan, s: State, k: nat)
    requires Inv(c, s) && !s.failed && 0 < k <= s.position && s.restored <= k
    ensures RingKeeps(c, s.high, s.restored, k) <==>
      forall p: nat :: p < k <= p + c.window ==> Intact(c, s, p)
  {
    hide Mod;
    if !RingKeeps(c, s.high, s.restored, k) {
      var p := if k < c.window then 0 else k - c.window;
      assert s.cells[Mod(p, c.rows)].tag > p;
      assert !Intact(c, s, p);
    }
  }

  /** Resuming at the frontier itself needs no check: it is admitted in every state. */
  lemma FrontierIsAlwaysKept(c: Plan, states: seq<State>, i: nat)
    requires c.Wide() && IsRun(c, states) && i < |states| && !states[i].failed
    ensures RingKeeps(c, states[i].high, states[i].restored, states[i].position)
  {
    RunKeepsInv(c, states, i);
  }

  /** A payload saved from any state of any run may be restored anywhere: whatever the other
      slots hold, the rows of its window are what a restore demands. */
  lemma SavedStateRestores(c: Plan, states: seq<State>, i: nat, cells: seq<Cell>, into: State)
    requires c.Wide() && IsRun(c, states) && i < |states| && !states[i].failed && |states[i].cells| == c.rows
    requires |into.cells| == c.rows && |into.branch| == into.position && |cells| == c.rows
    requires forall p: nat :: p < states[i].position <= p + c.window ==>
      cells[Mod(p, c.rows)] == states[i].cells[Mod(p, c.rows)]
    ensures Enabled(c, into, Restore(cells, states[i].branch))
  {
    hide IsRun, Mod;
    RunKeepsInv(c, states, i);
    var s := states[i];
    forall p: nat | p < s.position <= p + c.window
      ensures cells[Mod(p, c.rows)] == Cell(p, s.branch[p])
    {
      assert Intact(c, s, p);
    }
  }

  function RowsOf(cells: seq<Cell>): (rows: seq<Row>)
    ensures |rows| == |cells|
    ensures forall i :: 0 <= i < |rows| ==> rows[i] == cells[i].row
  {
    seq(|cells|, i requires 0 <= i < |cells| => cells[i].row)
  }

  lemma {:induction false} KeysAgree(q: Vec, scale: real, ring: seq<Row>, rows: nat, flat: seq<Row>, begin: nat, end: nat)
    requires rows > 0 && Readable(q, ring, rows, begin, end) && Readable(q, flat, 0, begin, end)
    requires forall p: nat :: begin <= p < end ==> ring[SlotOf(p, rows)] == flat[p]
    ensures Keys(q, scale, ring, rows, begin, end) == Keys(q, scale, flat, 0, begin, end)
    decreases end
  {
    hide SlotOf;
    if begin < end { KeysAgree(q, scale, ring, rows, flat, begin, end - 1); }
  }

  /** After any run, a forward of any block reads, for every one of its rows, exactly
      the keys an unbounded cache of the live branch would give it. */
  lemma ForwardReadsTheBranch(c: Plan, states: seq<State>, i: nat, rows: seq<Row>, r: nat, q: Vec, scale: real)
    requires c.Wide() && IsRun(c, states) && i < |states|
    requires Enabled(c, states[i], Forward(rows)) && r < |rows|
    requires RowsFit(RowsOf(Step(c, states[i], Forward(rows)).cells), |q|)
    requires RowsFit(states[i].branch + rows, |q|)
    ensures var s' := Step(c, states[i], Forward(rows));
      var position := states[i].position + r;
      var begin := WindowBegin(position, c.window);
      && |s'.branch| == states[i].position + |rows|
      && Keys(q, scale, RowsOf(s'.cells), c.rows, begin, position + 1)
         == Keys(q, scale, s'.branch, 0, begin, position + 1)
  {
    RunKeepsInv(c, states, i);
    ForwardKeepsInv(c, states[i], rows);
    ForwardWindow(c, states[i], rows, r, q, scale);
  }

  lemma ForwardWindow(c: Plan, s: State, rows: seq<Row>, r: nat, q: Vec, scale: real)
    requires Inv(c, s) && Enabled(c, s, Forward(rows)) && r < |rows|
    requires Inv(c, Step(c, s, Forward(rows)))
    requires RowsFit(RowsOf(Step(c, s, Forward(rows)).cells), |q|) && RowsFit(s.branch + rows, |q|)
    ensures var s' := Step(c, s, Forward(rows));
      var position := s.position + r;
      Keys(q, scale, RowsOf(s'.cells), c.rows, WindowBegin(position, c.window), position + 1)
      == Keys(q, scale, s'.branch, 0, WindowBegin(position, c.window), position + 1)
  {
    hide Mod, Written;
    var s' := Step(c, s, Forward(rows));
    var position := s.position + r;
    var begin := WindowBegin(position, c.window);
    forall p: nat | begin <= p < position + 1
      ensures RowsOf(s'.cells)[SlotOf(p, c.rows)] == s'.branch[p]
    {
      assert Intact(c, s', p);
    }
    KeysAgree(q, scale, RowsOf(s'.cells), c.rows, s'.branch, begin, position + 1);
  }

  /** What a layer's kernel reads, at the window and ring it is given, after any run: on
      every sixth layer the whole branch, on the others the last 1024 positions. */
  lemma GemmaReadsTheBranch(layer: nat, ctx: nat, chunk: nat, states: seq<State>, i: nat, rows: seq<Row>, r: nat, q: Vec, scale: real)
    requires layer < 30 && ctx > 0 && chunk > 0 && IsRun(GemmaPlan(layer, ctx, chunk), states) && i < |states|
    requires Enabled(GemmaPlan(layer, ctx, chunk), states[i], Forward(rows)) && r < |rows|
    requires RowsFit(RowsOf(Step(GemmaPlan(layer, ctx, chunk), states[i], Forward(rows)).cells), |q|)
    requires RowsFit(states[i].branch + rows, |q|)
    ensures var cache := RowsOf(Step(GemmaPlan(layer, ctx, chunk), states[i], Forward(rows)).cells);
      var position := states[i].position + r;
      var first := if layer % 6 == 5 || position < 1024 then 0 else position - 1023;
      && Readable(q, cache, GemmaRing(layer, ctx, chunk), WindowBegin(position, GemmaWindow(layer)), position + 1)
      && Keys(q, scale, cache, GemmaRing(layer, ctx, chunk), WindowBegin(position, GemmaWindow(layer)), position + 1)
         == Keys(q, scale, states[i].branch + rows, 0, first, position + 1)
  {
    hide IsRun, Keys, Written, Mod;
    var c := GemmaPlan(layer, ctx, chunk);
    var position := states[i].position + r;
    ForwardReadsTheBranch(c, states, i, rows, r, q, scale);
    if layer % 6 == 5 {
      AbsoluteLayout(q, scale, RowsOf(Step(c, states[i], Forward(rows)).cells), 0, position + 1);
    }
  }

  /** The same of MiMo, whose full layers are also addressed as a ring. */
  lemma MimoReadsTheBranch(layer: nat, ctx: nat, cap: nat, states: seq<State>, i: nat, rows: seq<Row>, r: nat, q: Vec, scale: real)
    requires ctx > 0 && cap > 0 && IsRun(MimoPlan(layer, ctx, cap), states) && i < |states|
    requires Enabled(MimoPlan(layer, ctx, cap), states[i], Forward(rows)) && r < |rows|
    requires RowsFit(RowsOf(Step(MimoPlan(layer, ctx, cap), states[i], Forward(rows)).cells), |q|)
    requires RowsFit(states[i].branch + rows, |q|)
    ensures var cache := RowsOf(Step(MimoPlan(layer, ctx, cap), states[i], Forward(rows)).cells);
      var position := states[i].position + r;
      var full := layer == 0 || (layer < 48 && layer % 6 == 5);
      var first := if full || position < 128 then 0 else position - 127;
      Keys(q, scale, cache, MimoCapacity(layer, ctx, cap), WindowBegin(position, MimoWindow(layer)), position + 1)
      == Keys(q, scale, states[i].branch + rows, 0, first, position + 1)
  {
    hide IsRun, Keys, Written, Mod;
    ForwardReadsTheBranch(MimoPlan(layer, ctx, cap), states, i, rows, r, q, scale);
  }

  /** Below the ring's size the two layouts are the same. */
  lemma {:induction false} AbsoluteLayout(q: Vec, scale: real, cache: seq<Row>, begin: nat, end: nat)
    requires cache != [] && begin <= end <= |cache| && RowsFit(cache, |q|)
    ensures Keys(q, scale, cache, |cache|, begin, end) == Keys(q, scale, cache, 0, begin, end)
    decreases end
  {
    if begin < end {
      ModSmall(end - 1, |cache|);
      AbsoluteLayout(q, scale, cache, begin, end - 1);
    }
  }

  /** The reference attention itself, run over the ring and over the absolute layout after
      any forward of any run, for any row of the block. */
  method AttendBothWays(e: real -> real, c: Plan, ghost states: seq<State>, ghost i: nat, ghost rows: seq<Row>,
                        q: Vec, ring: seq<Row>, flat: seq<Row>, position: nat)
    returns (ringOut: Vec, flatOut: Vec)
    requires Exponential(e) && c.Wide() && IsRun(c, states) && i < |states| && Enabled(c, states[i], Forward(rows))
    requires states[i].position <= position < states[i].position + |rows|
    requires ring == RowsOf(Step(c, states[i], Forward(rows)).cells) && flat == states[i].branch + rows
    requires RowsFit(ring, |q|) && RowsFit(flat, |q|)
    ensures ringOut == flatOut && |flatOut| == |q|
    ensures IsAverage(e, Keys(q, 1.0, flat, 0, WindowBegin(position, c.window), position + 1), flatOut)
  {
    BothLayouts(c, states, i, rows, q, ring, flat, position);
    hide *;
    ghost var m;
    ringOut, m := ReferenceAttention(e, q, ring, c.rows, position, c.window, 0);
    flatOut, m := ReferenceAttention(e, q, flat, 0, position, c.window, 0);
    AveragesAgree(e, Keys(q, 1.0, flat, 0, WindowBegin(position, c.window), position + 1), ringOut, flatOut);
  }

  lemma BothLayouts(c: Plan, states: seq<State>, i: nat, rows: seq<Row>, q: Vec, ring: seq<Row>, flat: seq<Row>, position: nat)
    requires c.Wide() && IsRun(c, states) && i < |states| && Enabled(c, states[i], Forward(rows))
    requires states[i].position <= position < states[i].position + |rows|
    requires ring == RowsOf(Step(c, states[i], Forward(rows)).cells) && flat == states[i].branch + rows
    requires RowsFit(ring, |q|) && RowsFit(flat, |q|)
    ensures c.rows > 0 && WindowBegin(position, c.window) < position + 1 == KeysEnd(position, 0)
    ensures Readable(q, ring, c.rows, 0, position + 1) && Readable(q, flat, 0, 0, position + 1)
    ensures Readable(q, ring, c.rows, WindowBegin(position, c.window), position + 1)
    ensures Readable(q, flat, 0, WindowBegin(position, c.window), position + 1)
    ensures Keys(q, 1.0, ring, c.rows, WindowBegin(position, c.window), position + 1)
         == Keys(q, 1.0, flat, 0, WindowBegin(position, c.window), position + 1)
  {
    hide IsRun, Keys, Written, Mod;
    ForwardReadsTheBranch(c, states, i, rows, position - states[i].position, q, 1.0);
  }

  lemma AveragesAgree(e: real -> real, ks: seq<Key>, a: Vec, b: Vec)
    requires |a| == |b| && Dimension(ks, |a|) && IsAverage(e, ks, a) && IsAverage(e, ks, b)
    ensures a == b
  {
  }

  /** Rows whose values tell position 0 from every other. */
  function Probe(n: nat): (rows: seq<Row>)
    ensures |rows| == n && RowsFit(rows, 1)
    ensures forall p :: 0 <= p < n ==> rows[p].value == [if p == 0 then 1.0 else 0.0]
  {
    seq(n, p => Row([0.0], [if p == 0 then 1.0 else 0.0]))
  }

  /** A slot keeps the newest position written to it, however long the stream. */
  lemma {:induction false} NewestStays(cells: seq<Cell>, rows: seq<Row>, n: nat, p: nat)
    requires |cells| > 0 && p < n <= |rows| && n <= p + |cells|
    ensures Written(cells, 0, Tagged(0, rows)[..n])[Mod(p, |cells|)] == Cell(p, rows[p])
  {
    hide Mod;
    assert Tagged(0, rows)[..n][..n - 1] == Tagged(0, rows)[..n - 1];
    if p < n - 1 {
      NewestStays(cells, rows, n - 1, p);
      ModApart(p, n - 1, |cells|);
    }
  }

  lemma SlotHoldsLate(cells: seq<Cell>, rows: seq<Row>, slot: nat) returns (p: nat)
    requires slot < |cells| <= |rows|
    ensures |rows| - |cells| <= p < |rows|
    ensures Written(cells, 0, Tagged(0, rows))[slot] == Cell(p, rows[p])
  {
    hide Mod;
    var a := |rows| - |cells|;
    var base := Mod(a, |cells|);
    p := a + (if slot >= base then slot - base else slot - base + |cells|);
    ModAdd(a, p - a, |cells|);
    assert Tagged(0, rows)[..|rows|] == Tagged(0, rows);
    NewestStays(cells, rows, |rows|, p);
  }

  lemma {:induction false} NothingWeighs(e: real -> real, ks: seq<Key>)
    requires Dimension(ks, 1) && forall i :: 0 <= i < |ks| ==> ks[i].value[0] == 0.0
    ensures Weighted(e, ks, 0) == 0.0
  {
    if ks != [] { NothingWeighs(e, ks[..|ks| - 1]); }
  }

  lemma {:induction false} FirstWeighs(e: real -> real, ks: seq<Key>)
    requires Exponential(e) && Dimension(ks, 1) && ks != [] && ks[0].value[0] == 1.0
    requires forall i :: 1 <= i < |ks| ==> ks[i].value[0] == 0.0
    ensures Weighted(e, ks, 0) > 0.0
  {
    hide Exponential;
    if |ks| == 1 {
      Positive(e, ks[0].score);
      assert Weighted(e, ks[..0], 0) == 0.0;
    } else {
      FirstWeighs(e, ks[..|ks| - 1]);
    }
  }

  lemma {:induction false} KeysValues(q: Vec, scale: real, cache: seq<Row>, ring: nat, begin: nat, end: nat, i: nat)
    requires Readable(q, cache, ring, begin, end) && i < end - begin
    ensures Keys(q, scale, cache, ring, begin, end)[i].value == cache[SlotOf(begin + i, ring)].value
    decreases end
  {
    hide SlotOf, Dot;
    if i < end - begin - 1 { KeysValues(q, scale, cache, ring, begin, end - 1, i); }
  }

  /** The decode form: rows stored one position at a time, the newest row querying. With
      at least `window` slots (or no wrap yet) it reads exactly its window of the history. */
  lemma StoredWindowIsHistory(q: Vec, scale: real, cells: seq<Cell>, history: seq<Row>, window: nat)
    requires |cells| > 0 && history != [] && RowsFit(history, |q|)
    requires RowsFit(RowsOf(Written(cells, 0, Tagged(0, history))), |q|)
    requires 0 < window <= |cells| || |history| <= |cells|
    ensures var begin := WindowBegin(|history| - 1, window);
      Keys(q, scale, RowsOf(Written(cells, 0, Tagged(0, history))), |cells|, begin, |history|)
      == Keys(q, scale, history, 0, begin, |history|)
  {
    hide Mod, Written;
    var begin := WindowBegin(|history| - 1, window);
    var ring := RowsOf(Written(cells, 0, Tagged(0, history)));
    forall p: nat | begin <= p < |history|
      ensures ring[SlotOf(p, |cells|)] == history[p]
    {
      assert Tagged(0, history)[..|history|] == Tagged(0, history);
      NewestStays(cells, history, |history|, p);
    }
    KeysAgree(q, scale, ring, |cells|, history, begin, |history|);
  }

  /** Once a stream has lapped the ring, every slot holds one of the stream's rows. */
  lemma LappedRingFits(cells: seq<Cell>, rows: seq<Row>, dim: nat)
    requires 0 < |cells| <= |rows| && RowsFit(rows, dim)
    ensures RowsFit(RowsOf(Written(cells, 0, Tagged(0, rows))), dim)
  {
    hide Written, Mod;
    forall slot: nat | slot < |cells|
      ensures RowsOf(Written(cells, 0, Tagged(0, rows)))[slot] in rows
    {
      var p := SlotHoldsLate(cells, rows, slot);
    }
  }

  /** What the two layouts give a query for its i-th key, once a longer stream than the
      ring has gone through it. */
  lemma ProbeLost(q: Vec, total: nat, end: nat, cells: seq<Cell>, i: nat)
    requires |q| == 1 && 0 < |cells| < total && i < end <= total
    requires RowsFit(RowsOf(Written(cells, 0, Tagged(0, Probe(total)))), 1)
    ensures var rows := Probe(total);
      var ring := RowsOf(Written(cells, 0, Tagged(0, rows)));
      && Keys(q, 1.0, ring, |cells|, 0, end)[i].value == [0.0]
      && Keys(q, 1.0, rows, 0, 0, end)[i].value == [if i == 0 then 1.0 else 0.0]
  {
    hide Written, Mod, Keys;
    var rows := Probe(total);
    var ring := RowsOf(Written(cells, 0, Tagged(0, rows)));
    KeysValues(q, 1.0, ring, |cells|, 0, end, i);
    KeysValues(q, 1.0, rows, 0, 0, end, i);
    var p := SlotHoldsLate(cells, rows, SlotOf(i, |cells|));
    assert ring[SlotOf(i, |cells|)].value == rows[p].value == [0.0];
  }

  lemma {:induction false} WrittenConcat<T>(cells: seq<T>, first: nat, a: seq<T>, b: seq<T>)
    requires |cells| > 0
    ensures Written(Written(cells, first, a), first + |a|, b) == Written(cells, first, a + b)
    decreases |b|
  {
    hide Mod;
    if b == [] {
      assert a + b == a;
    } else {
      var n := |b| - 1;
      assert (a + b)[..|a| + n] == a + b[..n] && (a + b)[|a| + n] == b[n];
      WrittenConcat(cells, first, a, b[..n]);
    }
  }

  /** A run that feeds a stream one row at a time. */
  lemma {:induction false} FeedRows(c: Plan, cells: seq<Cell>, rows: seq<Row>, n: nat) returns (states: seq<State>)
    requires c.rows > 0 && c.block > 0 && |cells| == c.rows && n <= |rows| && n <= c.ctx
    ensures IsRun(c, states) && |states| == n + 1
    ensures states[n] == State(Written(cells, 0, Tagged(0, rows[..n])), n, n, 0, false, rows[..n])
  {
    hide Mod;
    if n == 0 {
      assert Tagged(0, rows[..0]) == [];
      states := [State(cells, 0, 0, 0, false, [])];
    } else {
      var before := FeedRows(c, cells, rows, n - 1);
      var s, block := before[n - 1], [rows[n - 1]];
      FedOne(c, cells, rows, n - 1, s);
      hide Enabled, Step, Written;
      assert Next(c, s, Step(c, s, Forward(block)));
      states := before + [Step(c, s, Forward(block))];
    }
  }

  lemma FedOne(c: Plan, cells: seq<Cell>, rows: seq<Row>, n: nat, s: State)
    requires c.rows > 0 && c.block > 0 && |cells| == c.rows && n < |rows| && n < c.ctx
    requires s == State(Written(cells, 0, Tagged(0, rows[..n])), n, n, 0, false, rows[..n])
    ensures Enabled(c, s, Forward([rows[n]]))
    ensures Step(c, s, Forward([rows[n]]))
         == State(Written(cells, 0, Tagged(0, rows[..n + 1])), n + 1, n + 1, 0, false, rows[..n + 1])
  {
    hide Mod, Written;
    FedBlock(cells, rows, n, n + 1);
    assert rows[n..n + 1] == [rows[n]] && rows[..n] + [rows[n]] == rows[..n + 1];
  }

  lemma FedBlock(cells: seq<Cell>, rows: seq<Row>, a: nat, b: nat)
    requires |cells| > 0 && a <= b <= |rows|
    ensures Written(Written(cells, 0, Tagged(0, rows[..a])), a, Tagged(a, rows[a..b])) == Written(cells, 0, Tagged(0, rows[..b]))
  {
    hide Mod, Written;
    WrittenConcat(cells, 0, Tagged(0, rows[..a]), Tagged(a, rows[a..b]));
    assert Tagged(0, rows[..a]) + Tagged(a, rows[a..b]) == Tagged(0, rows[..b]);
  }

  /** One query of one forward of one run, over both layouts. */
  ghost predicate Attends(e: real -> real, c: Plan, states: seq<State>, rows: seq<Row>, r: nat, q: Vec, ringOut: Vec, flatOut: Vec)
    requires c.rows > 0
  {
    && IsRun(c, states) && Enabled(c, states[|states| - 1], Forward(rows)) && r < |rows|
    && var s := states[|states| - 1];
       var s' := Step(c, s, Forward(rows));
       var begin, end := WindowBegin(s.position + r, c.window), s.position + r + 1;
       && RowsFit(RowsOf(s'.cells), |q|) && RowsFit(s'.branch, |q|)
       && |ringOut| == |flatOut| == |q| && |s'.cells| == c.rows && end <= |s'.branch|
       && IsAverage(e, Keys(q, 1.0, RowsOf(s'.cells), c.rows, begin, end), ringOut)
       && IsAverage(e, Keys(q, 1.0, s'.branch, 0, begin, end), flatOut)
  }

  ghost predicate AlwaysRight(e: real -> real, c: Plan)
    requires c.rows > 0
  {
    forall states, rows, r, q, ringOut, flatOut :: Attends(e, c, states, rows, r, q, ringOut, flatOut) ==> ringOut == flatOut
  }

  /** The ring size is exact: every query of every run attends as over absolute positions
      if and only if the ring holds window + block - 1 rows, or the whole context. */
  lemma WideIsExact(e: real -> real, c: Plan)
    requires Exponential(e) && c.window > 0 && c.rows > 0 && c.block > 0
    ensures c.Wide() <==> AlwaysRight(e, c)
  {
    hide Exponential, Attends;
    if c.Wide() {
      forall states, rows, r: nat, q, ringOut, flatOut | Attends(e, c, states, rows, r, q, ringOut, flatOut)
        ensures ringOut == flatOut
      {
        WideIsRight(e, c, states, rows, r, q, ringOut, flatOut);
      }
    } else {
      var states, rows, q, ringOut, flatOut := NarrowIsWrong(e, c);
      assert Attends(e, c, states, rows, 0, q, ringOut, flatOut);
    }
  }

  lemma WideIsRight(e: real -> real, c: Plan, states: seq<State>, rows: seq<Row>, r: nat, q: Vec, ringOut: Vec, flatOut: Vec)
    requires c.Wide() && Attends(e, c, states, rows, r, q, ringOut, flatOut)
    ensures ringOut == flatOut
  {
    hide IsAverage, Keys;
    var i := |states| - 1;
    assert Step(c, states[i], Forward(rows)).branch == states[i].branch + rows;
    ForwardReadsTheBranch(c, states, i, rows, r, q, 1.0);
    var s' := Step(c, states[i], Forward(rows));
    var position := states[i].position + r;
    AveragesAgree(e, Keys(q, 1.0, s'.branch, 0, WindowBegin(position, c.window), position + 1), ringOut, flatOut);
  }

  function Average(e: real -> real, ks: seq<Key>): (out: Vec)
    requires Exponential(e) && ks != [] && Dimension(ks, 1)
    ensures |out| == 1 && IsAverage(e, ks, out)
  {
    WeightSumPositive(e, ks);
    [Weighted(e, ks, 0) / WeightSum(e, ks)]
  }

  /** In a ring that is too small: feed the stream up to the block that overwrites position
      0 while its own first row still reads it. */
  lemma NarrowIsWrong(e: real -> real, c: Plan)
    returns (states: seq<State>, rows: seq<Row>, q: Vec, ringOut: Vec, flatOut: Vec)
    requires Exponential(e) && c.window > 0 && c.rows > 0 && c.block > 0 && !c.Wide()
    ensures Attends(e, c, states, rows, 0, q, ringOut, flatOut) && ringOut != flatOut
  {
    hide Exponential, IsAverage, Keys, Written, Mod, Probe, RowsOf, IsRun;
    var total := if c.ctx < c.window + c.block - 1 then c.ctx else c.window + c.block - 1;
    var at := if total > c.block then total - c.block else 0;
    var all := Probe(total);
    var cells := seq(c.rows, _ => Cell(0, Row([0.0], [0.0])));
    states := FeedRows(c, cells, all, at);
    rows, q := all[at..], [0.0];
    var s := states[at];
    FedBlock(cells, all, at, total);
    assert all[..total] == all && all[at..total] == rows && all[..at] + rows == all;
    assert Enabled(c, s, Forward(rows));
    var s' := Step(c, s, Forward(rows));
    assert s'.cells == Written(cells, 0, Tagged(0, all)) && s'.branch == all;
    LappedRingFits(cells, all, 1);
    var ring := RowsOf(s'.cells);
    var ks, fs := Keys(q, 1.0, ring, c.rows, 0, at + 1), Keys(q, 1.0, all, 0, 0, at + 1);
    forall i: nat | i < at + 1
      ensures ks[i].value == [0.0] && fs[i].value == [if i == 0 then 1.0 else 0.0]
    {
      ProbeLost(q, total, at + 1, cells, i);
    }
    ringOut, flatOut := Average(e, ks), Average(e, fs);
    AveragesDiffer(e, ks, fs, ringOut, flatOut);
  }

  lemma AveragesDiffer(e: real -> real, ks: seq<Key>, fs: seq<Key>, a: Vec, b: Vec)
    requires Exponential(e) && Dimension(ks, 1) && Dimension(fs, 1) && |a| == |b| == 1 && fs != []
    requires forall i :: 0 <= i < |ks| ==> ks[i].value == [0.0]
    requires forall i :: 0 <= i < |fs| ==> fs[i].value == [if i == 0 then 1.0 else 0.0]
    requires IsAverage(e, ks, a) && IsAverage(e, fs, b)
    ensures a != b
  {
    hide Exponential, Weighted, WeightSum;
    NothingWeighs(e, ks);
    FirstWeighs(e, fs);
    PositiveQuotient(Weighted(e, fs, 0), WeightSum(e, fs));
    assert a[0] == 0.0 && b[0] > 0.0;
  }

  lemma PositiveQuotient(a: real, b: real)
    requires a > 0.0 && b > 0.0
    ensures a / b > 0.0
  {
  }
}
