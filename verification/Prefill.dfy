/** The pipelined prefill: a producer evaluates chunks and fills send slots, a sender
    thread puts them on the wire, the worker chain answers, and a reader thread checks
    every answer and opens the producer's flow window. Each action below is one
    mutex-protected region or one unlocked access of one thread. */
module Prefill {
  import opened Arithmetic
  import opened TokenHash
  import opened SendRing
  import WorkerSession

  /** `reset`: the first chunk resets worker sessions; `ackOff`: acknowledgements-only
      results are disabled; `allowHidden`: the last hop returns hidden states. */
  datatype Config = Config(prompt: seq<Token>, spanStart: nat, spanEnd: nat, cap: nat, slots: nat,
                           window: nat, firstId: nat, reset: bool, ackOff: bool, allowHidden: bool) {
    predicate Valid() {
      spanStart < spanEnd <= |prompt| && cap > 0 && slots > 0 && window > 0
    }
  }

  /** Where chunk `i` starts; chunk count and last chunk follow the source's rounding up. */
  function Start(c: Config, i: nat): (p: nat)
    requires c.Valid()
    ensures c.spanStart <= p <= c.spanEnd
  {
    if i == 0 then c.spanStart else Min(Start(c, i - 1) + c.cap, c.spanEnd)
  }

  function Count(c: Config): nat
    requires c.Valid()
  {
    (c.spanEnd - c.spanStart + c.cap - 1) / c.cap
  }

  /** A WORK frame's worth of slot. */
  datatype Chunk = Chunk(pos: nat, nTokens: nat, id: nat, prefixHash: Hash, resultHash: Hash,
                         reset: bool, ackOnly: bool)

  /** The i-th chunk of the span: ids count up, and each prefix hash is the hash of
      everything before the chunk. */
  function ChunkAt(c: Config, i: nat): Chunk
    requires c.Valid()
  {
    Chunk(Start(c, i), Start(c, i + 1) - Start(c, i), c.firstId + i,
          Prefix(c.prompt[..Start(c, i)]), Prefix(c.prompt[..Start(c, i + 1)]),
          c.reset && i == 0, !c.ackOff && Start(c, i + 1) < c.spanEnd)
  }

  function Chunks(c: Config, lo: nat, hi: nat): (s: seq<Chunk>)
    requires c.Valid() && lo <= hi
    ensures |s| == hi - lo
    ensures forall j :: 0 <= j < |s| ==> s[j] == ChunkAt(c, lo + j)
  {
    seq(hi - lo, j requires 0 <= j < hi - lo => ChunkAt(c, lo + j))
  }

  /** The hash the reader is told to expect for chunk `i`: a chain of span hashes. */
  function ExpectedHash(c: Config, i: nat): Hash
    requires c.Valid()
  {
    var before := if i == 0 then Prefix(c.prompt[..c.spanStart]) else ExpectedHash(c, i - 1);
    Span(before, c.prompt[Start(c, i)..Start(c, i + 1)])
  }

  /** The table built before the threads start. */
  method ExpectedHashes(c: Config) returns (hashes: seq<Hash>)
    requires c.Valid()
    ensures |hashes| == Count(c)
    ensures forall i :: 0 <= i < |hashes| ==> hashes[i] == Prefix(c.prompt[..Start(c, i + 1)])
  {
    hide Prefix, Count, Span;
    var count := Count(c);
    var prefix := UpdateSpan(INIT, c.prompt[..c.spanStart]);
    InitialPrefix(c);
    var pos := c.spanStart;
    hashes := [];
    for i := 0 to count
      invariant |hashes| == i && pos == Start(c, i) && prefix == Prefix(c.prompt[..pos])
      invariant forall j :: 0 <= j < i ==> hashes[j] == Prefix(c.prompt[..Start(c, j + 1)])
    {
      var n := Min(c.spanEnd - pos, c.cap);
      PrefixStep(c.prompt, pos, pos + n);
      prefix := UpdateSpan(prefix, c.prompt[pos..pos + n]);
      hashes := hashes + [prefix];
      pos := pos + n;
    }
  }

  lemma InitialPrefix(c: Config)
    requires c.Valid()
    ensures Span(INIT, c.prompt[..c.spanStart]) == Prefix(c.prompt[..Start(c, 0)])
  {
  }

  lemma PrefixStep(prompt: seq<Token>, a: nat, b: nat)
    requires a <= b <= |prompt|
    ensures Prefix(prompt[..b]) == Span(Prefix(prompt[..a]), prompt[a..b])
  {
    hide Span;
    assert prompt[..b] == prompt[..a] + prompt[a..b];
    SpanConcat(INIT, prompt[..a], prompt[a..b]);
  }

  lemma {:induction false} ExpectedIsPrefix(c: Config, i: nat)
    requires c.Valid()
    ensures ExpectedHash(c, i) == Prefix(c.prompt[..Start(c, i + 1)])
  {
    hide Prefix, Span;
    if i > 0 { ExpectedIsPrefix(c, i - 1); }
    assert Start(c, i) <= Start(c, i + 1);
    PrefixStep(c.prompt, Start(c, i), Start(c, i + 1));
  }

  lemma {:induction false} StartIs(c: Config, i: nat)
    requires c.Valid()
    ensures Start(c, i) == Min(c.spanStart + i * c.cap, c.spanEnd)
  {
    if i > 0 {
      StartIs(c, i - 1);
      assert i * c.cap == (i - 1) * c.cap + c.cap;
      assert (i - 1) * c.cap >= 0;
    }
  }

  lemma CountBounds(total: nat, cap: nat, n: nat, i: nat)
    requires total > 0 && cap > 0 && n == (total + cap - 1) / cap
    ensures i < n ==> i * cap < total
    ensures i >= n ==> i * cap >= total
  {
    assert n * cap <= total + cap - 1 < n * cap + cap;
    if i < n {
      TimesRises(i + 1, n, cap);
      assert (i + 1) * cap == i * cap + cap;
    } else {
      TimesRises(n, i, cap);
    }
  }

  /** The chunks end exactly where the span does, and not before the last one. */
  lemma StartReachesEnd(c: Config, i: nat)
    requires c.Valid()
    ensures Start(c, i) < c.spanEnd <==> i < Count(c)
    ensures i > 0 ==> Start(c, i) > c.spanStart
  {
    StartIs(c, i);
    CountBounds(c.spanEnd - c.spanStart, c.cap, Count(c), i);
    if i > 0 { TimesRises(1, i, c.cap); }
  }

  datatype Kind = Ack | Hidden | Logits
  /** A RESULT as the reader sees it: `sizeOk` says the payload size is the one its kind
      calls for. */
  datatype Frame = Frame(id: nat, ok: bool, hash: Hash, kind: Kind, sizeOk: bool)

  /** What the reader accepts as the answer to chunk `i`. */
  predicate Good(c: Config, i: nat, f: Frame)
    requires c.Valid()
  {
    && f.id == c.firstId + i && f.ok && f.hash == ExpectedHash(c, i) && f.sizeOk
    && match f.kind
       case Ack => i + 1 < Count(c)
       case Hidden => c.allowHidden
       case Logits => true
  }

  datatype Producer = WaitWindow | WaitSlot | Filling | Filled | Finished | Cancelled
  datatype Courier = Idle | Sending | Sent | Exited
  datatype Reader = Reading | Stopped

  datatype State = State(
    ring: Ring<Chunk>, producerDone: bool, stop: bool, sendFailed: bool,
    producer: Producer, pos: nat, submitted: nat, nextId: nat, nextPrefix: Hash,
    courier: Courier, wire: seq<Chunk>,
    answered: nat, inbox: seq<Frame>,
    reader: Reader, completed: nat, done: bool, readFailed: bool, log: seq<Frame>)

  datatype Action =
    | OpenWindow | WindowClosed | Acquire | AcquireRefused | Fill | EvalFailed | Enqueue | EnqueueRefused | Finish
    | StartSend | FrameLeft | ReleaseHead | SendError | CourierExit
    | Answer(frame: Frame)
    | Receive | ReadError

  ghost predicate Initial(c: Config, s: State) {
    && c.Valid()
    && |s.ring.slots| == c.slots && s.ring == Ring(s.ring.slots, 0, 0, 0)
    && s == State(s.ring, false, false, false,
                  WaitWindow, c.spanStart, 0, c.firstId, Prefix(c.prompt[..c.spanStart]),
                  Idle, [], 0, [], Reading, 0, false, false, [])
  }

  ghost predicate Enabled(c: Config, s: State, a: Action)
    requires c.Valid()
  {
    match a
    case OpenWindow => s.producer == WaitWindow && s.pos < c.spanEnd && !s.done && s.submitted < s.completed + c.window
    case WindowClosed => s.producer == WaitWindow && s.pos < c.spanEnd && s.done
    case Acquire => s.producer == WaitSlot && !s.stop && !s.sendFailed && s.ring.queued < |s.ring.slots|
    case AcquireRefused => s.producer == WaitSlot && (s.stop || (s.sendFailed && s.ring.queued < |s.ring.slots|))
    case Fill => s.producer == Filling
    case EvalFailed => s.producer == Filling
    case Enqueue => s.producer == Filled && !s.stop && !s.sendFailed
    case EnqueueRefused => s.producer == Filled && (s.stop || s.sendFailed)
    case Finish => s.producer == WaitWindow && s.pos >= c.spanEnd
    case StartSend => s.courier == Idle && !s.stop && s.ring.queued > 0
    case FrameLeft => s.courier == Sending
    case ReleaseHead => s.courier == Sent
    case SendError => s.courier == Sending
    case CourierExit => s.courier == Idle && (s.stop || (s.ring.queued == 0 && s.producerDone))
    case Answer(f) => s.answered < |s.wire|
    case Receive => s.reader == Reading && s.inbox != []
    case ReadError => s.reader == Reading
  }

  function Cancel(s: State): State { s.(producer := Cancelled, producerDone := true, stop := true) }

  /** The slot the producer writes, from its own running variables. */
  function NextChunk(c: Config, s: State): Chunk
    requires c.Valid() && s.pos <= c.spanEnd
  {
    var n := Min(c.spanEnd - s.pos, c.cap);
    Chunk(s.pos, n, s.nextId, s.nextPrefix, ExpectedHash(c, s.submitted),
          c.reset && s.pos == c.spanStart, !c.ackOff && s.pos + n < c.spanEnd)
  }

  predicate Callable(c: Config, s: State, a: Action) {
    && s.pos <= c.spanEnd && s.ring.head < |s.ring.slots| && s.ring.tail < |s.ring.slots|
    && (a.ReleaseHead? ==> s.ring.queued > 0)
  }

  function Apply(c: Config, s: State, a: Action): State
    requires c.Valid() && Callable(c, s, a)
  {
    match a
    case OpenWindow => s.(producer := WaitSlot)
    case Acquire => s.(producer := Filling)
    case Fill => s.(producer := Filled, ring := SendRing.Fill(s.ring, NextChunk(c, s)))
    case Enqueue =>
      var slot := s.ring.slots[s.ring.tail];
      s.(producer := WaitWindow, ring := Publish(s.ring), submitted := s.submitted + 1,
         nextId := s.nextId + 1, nextPrefix := slot.resultHash, pos := s.pos + slot.nTokens)
    case Finish => s.(producer := Finished, producerDone := true)
    case WindowClosed => Cancel(s)
    case AcquireRefused => Cancel(s)
    case EvalFailed => Cancel(s)
    case EnqueueRefused => Cancel(s)
    case StartSend => s.(courier := Sending)
    case FrameLeft => s.(courier := Sent, wire := s.wire + [s.ring.slots[s.ring.head]])
    case ReleaseHead => s.(courier := Idle, ring := Release(s.ring))
    case SendError => s.(courier := Exited, sendFailed := true, stop := true)
    case CourierExit => s.(courier := Exited)
    case Answer(f) => s.(answered := s.answered + 1, inbox := s.inbox + [f])
    case Receive =>
      if s.inbox == [] then s
      else
        var f, rest := s.inbox[0], s.inbox[1..];
        if !Good(c, s.completed, f) then s.(inbox := rest, reader := Stopped, done := true, readFailed := true)
        else
          var last := s.completed + 1 == Count(c);
          s.(inbox := rest, completed := s.completed + 1, log := s.log + [f],
             done := s.done || last, reader := if last then Stopped else Reading)
    case ReadError => s.(reader := Stopped, done := true, readFailed := true)
  }

  /** Everything handed to the ring so far is on the wire or still queued, in order. */
  ghost predicate RingInv(c: Config, s: State)
    requires c.Valid()
  {
    && Ok(s.ring) && |s.ring.slots| == c.slots
    && (s.courier == Sending || s.courier == Sent ==> s.ring.queued > 0)
    && (s.courier == Sent ==> s.wire != [])
    && var away := if s.courier == Sent then 1 else 0;
       && s.submitted + away == |s.wire| + s.ring.queued
       && s.wire == Chunks(c, 0, |s.wire|)
       && Queue(s.ring) == Chunks(c, s.submitted - s.ring.queued, s.submitted)
  }

  ghost predicate ProducerInv(c: Config, s: State)
    requires c.Valid()
  {
    && s.submitted <= Count(c) && s.pos == Start(c, s.submitted)
    && s.nextId == c.firstId + s.submitted && s.nextPrefix == Prefix(c.prompt[..s.pos])
    && s.submitted <= s.completed + c.window
    && (s.producer in {WaitSlot, Filling, Filled} ==> s.pos < c.spanEnd && s.submitted < s.completed + c.window)
    && (s.producer in {Filling, Filled} ==> s.ring.queued < |s.ring.slots|)
    && (s.producer == Filled ==> s.ring.tail < |s.ring.slots| && s.ring.slots[s.ring.tail] == ChunkAt(c, s.submitted))
    && (s.producer == Finished ==> s.pos == c.spanEnd)
    && (s.producerDone <==> s.producer in {Finished, Cancelled})
    && (s.stop <==> s.sendFailed || s.producer == Cancelled)
    && (s.courier == Exited && !s.stop ==> s.producer == Finished && s.ring.queued == 0)
  }

  ghost predicate ReaderInv(c: Config, s: State)
    requires c.Valid()
  {
    && s.completed + |s.inbox| <= s.answered <= |s.wire|
    && s.completed == |s.log| <= Count(c)
    && (forall i :: 0 <= i < |s.log| ==> Good(c, i, s.log[i]))
    && (s.reader == Reading ==> !s.done && !s.readFailed && s.completed < Count(c) && s.answered == s.completed + |s.inbox|)
    && (s.reader == Stopped ==> s.done && (s.readFailed || s.completed == Count(c)))
  }

  ghost predicate Inv(c: Config, s: State) {
    c.Valid() && RingInv(c, s) && ProducerInv(c, s) && ReaderInv(c, s)
  }

  lemma ApplyIsCallable(c: Config, s: State, a: Action)
    requires Inv(c, s) && Enabled(c, s, a)
    ensures Callable(c, s, a)
  {
  }

  function Next(c: Config, s: State, a: Action): State
    requires Inv(c, s) && Enabled(c, s, a)
  {
    ApplyIsCallable(c, s, a);
    Apply(c, s, a)
  }

  lemma NextChunkIsChunkAt(c: Config, s: State)
    requires c.Valid() && ProducerInv(c, s) && s.pos < c.spanEnd
    ensures NextChunk(c, s) == ChunkAt(c, s.submitted)
  {
    hide Prefix, ExpectedHash, Count;
    ExpectedIsPrefix(c, s.submitted);
    StartReachesEnd(c, s.submitted);
  }

  lemma ChunksSnoc(c: Config, lo: nat, hi: nat)
    requires c.Valid() && lo <= hi
    ensures Chunks(c, lo, hi + 1) == Chunks(c, lo, hi) + [ChunkAt(c, hi)]
  {
    hide ChunkAt;
  }

  lemma ChunksTail(c: Config, lo: nat, hi: nat)
    requires c.Valid() && lo < hi
    ensures Chunks(c, lo, hi) == [ChunkAt(c, lo)] + Chunks(c, lo + 1, hi)
  {
    hide ChunkAt;
  }

  lemma FillKeepsInv(c: Config, s: State)
    requires Inv(c, s) && Enabled(c, s, Fill)
    ensures Inv(c, Next(c, s, Fill))
  {
    hide ChunkAt, NextChunk, Count, Start, Prefix, Good, Queue, SendRing.Ok;
    RingIndexes(s.ring);
    NextChunkIsChunkAt(c, s);
    FillKeepsQueue(s.ring, NextChunk(c, s));
  }

  lemma RingIndexes(r: Ring<Chunk>)
    requires Ok(r)
    ensures r.head < |r.slots| && r.tail < |r.slots|
  {
  }

  lemma EnqueueKeepsRing(c: Config, s: State)
    requires Inv(c, s) && Enabled(c, s, Enqueue)
    ensures RingInv(c, Next(c, s, Enqueue))
  {
    hide ChunkAt, Count, Start, Prefix, Queue, SendRing.Ok, Chunks, ReaderInv;
    RingIndexes(s.ring);
    PublishAppends(s.ring);
    ChunksSnoc(c, s.submitted - s.ring.queued, s.submitted);
  }

  lemma EnqueueKeepsProducer(c: Config, s: State)
    requires Inv(c, s) && Enabled(c, s, Enqueue)
    ensures ProducerInv(c, Next(c, s, Enqueue))
  {
    hide Count, Prefix, SendRing.Ok, RingInv, ReaderInv;
    StartReachesEnd(c, s.submitted);
  }

  lemma EnqueueKeepsInv(c: Config, s: State)
    requires Inv(c, s) && Enabled(c, s, Enqueue)
    ensures Inv(c, Next(c, s, Enqueue))
  {
    hide RingInv, ProducerInv, ReaderInv;
    EnqueueKeepsRing(c, s);
    EnqueueKeepsProducer(c, s);
    ReaderFrame(c, s, Next(c, s, Enqueue));
  }

  lemma OtherProducerKeepsInv(c: Config, s: State, a: Action)
    requires Inv(c, s) && Enabled(c, s, a)
    requires a in {OpenWindow, WindowClosed, Acquire, AcquireRefused, EvalFailed, EnqueueRefused, Finish}
    ensures Inv(c, Next(c, s, a))
  {
    hide ChunkAt, Count, Start, Prefix, Good, Queue, SendRing.Ok;
    StartAtMostEnd(c, s.submitted);
  }

  lemma StartAtMostEnd(c: Config, i: nat)
    requires c.Valid()
    ensures Start(c, i) <= c.spanEnd
  {
  }

  /** Each part of the invariant only looks at some of the state. */
  lemma RingFrame(c: Config, s: State, s': State)
    requires c.Valid() && RingInv(c, s)
    requires (s'.ring, s'.submitted, s'.wire) == (s.ring, s.submitted, s.wire)
    requires s'.courier == s.courier || (s'.courier == Exited && s.courier != Sent)
    ensures RingInv(c, s')
  {
    hide Queue, Chunks, SendRing.Ok;
  }

  lemma ReaderFrame(c: Config, s: State, s': State)
    requires c.Valid() && ReaderInv(c, s) && s.wire <= s'.wire
    requires (s'.answered, s'.inbox, s'.reader, s'.completed) == (s.answered, s.inbox, s.reader, s.completed)
    requires (s'.done, s'.readFailed, s'.log) == (s.done, s.readFailed, s.log)
    ensures ReaderInv(c, s')
  {
    hide Good, Count;
  }

  lemma ProducerFrame(c: Config, s: State, s': State)
    requires c.Valid() && ProducerInv(c, s) && s.completed <= s'.completed
    requires (s'.ring, s'.producerDone, s'.stop, s'.sendFailed) == (s.ring, s.producerDone, s.stop, s.sendFailed)
    requires (s'.producer, s'.pos, s'.submitted) == (s.producer, s.pos, s.submitted)
    requires (s'.nextId, s'.nextPrefix, s'.courier) == (s.nextId, s.nextPrefix, s.courier)
    ensures ProducerInv(c, s')
  {
    hide Count, Start, ChunkAt, Prefix;
  }

  lemma FrameLeftKeepsInv(c: Config, s: State)
    requires Inv(c, s) && Enabled(c, s, FrameLeft)
    ensures Inv(c, Next(c, s, FrameLeft))
  {
    hide ChunkAt, Count, Start, Prefix, Queue, SendRing.Ok, Chunks, ReaderInv;
    RingIndexes(s.ring);
    ReleaseDropsFirst(s.ring);
    ChunksTail(c, s.submitted - s.ring.queued, s.submitted);
    ChunksSnoc(c, 0, |s.wire|);
    assert Queue(s.ring)[0] == s.ring.slots[s.ring.head] == ChunkAt(c, |s.wire|);
    ReaderFrame(c, s, Next(c, s, FrameLeft));
  }

  lemma ReleaseHeadKeepsInv(c: Config, s: State)
    requires Inv(c, s) && Enabled(c, s, ReleaseHead)
    ensures Inv(c, Next(c, s, ReleaseHead))
  {
    hide ChunkAt, Count, Start, Prefix, Queue, SendRing.Ok, Chunks, ReaderInv;
    RingIndexes(s.ring);
    ReleaseDropsFirst(s.ring);
    ChunksTail(c, s.submitted - s.ring.queued, s.submitted);
    assert Queue(s.ring)[1..] == Queue(Release(s.ring));
    ReaderFrame(c, s, Next(c, s, ReleaseHead));
  }

  lemma OtherCourierKeepsInv(c: Config, s: State, a: Action)
    requires Inv(c, s) && Enabled(c, s, a)
    requires a in {StartSend, SendError, CourierExit}
    ensures Inv(c, Next(c, s, a))
  {
    hide ChunkAt, Count, Start, Prefix, Queue, SendRing.Ok, Chunks, ReaderInv;
    ReaderFrame(c, s, Next(c, s, a));
  }

  lemma ReaderKeepsInv(c: Config, s: State, a: Action)
    requires Inv(c, s) && Enabled(c, s, a)
    requires a.Answer? || a.Receive? || a.ReadError?
    ensures Inv(c, Next(c, s, a))
  {
    hide RingInv, ProducerInv, Count, Good;
    RingFrame(c, s, Next(c, s, a));
    ProducerFrame(c, s, Next(c, s, a));
  }

  lemma StepKeepsInv(c: Config, s: State, a: Action)
    requires Inv(c, s) && Enabled(c, s, a)
    ensures Inv(c, Next(c, s, a))
  {
    hide Inv, Enabled;
    match a
    case Fill => FillKeepsInv(c, s);
    case Enqueue => EnqueueKeepsInv(c, s);
    case Answer(_) => ReaderKeepsInv(c, s, a);
    case Receive => ReaderKeepsInv(c, s, a);
    case ReadError => ReaderKeepsInv(c, s, a);
    case FrameLeft => FrameLeftKeepsInv(c, s);
    case ReleaseHead => ReleaseHeadKeepsInv(c, s);
    case StartSend => OtherCourierKeepsInv(c, s, a);
    case SendError => OtherCourierKeepsInv(c, s, a);
    case CourierExit => OtherCourierKeepsInv(c, s, a);
    case _ => OtherProducerKeepsInv(c, s, a);
  }

  ghost predicate Step(c: Config, s: State, a: Action, s': State) {
    c.Valid() && Enabled(c, s, a) && Callable(c, s, a) && s' == Apply(c, s, a)
  }

  /** An interleaving of the threads' actions. */
  ghost predicate IsRun(c: Config, states: seq<State>, actions: seq<Action>) {
    && |states| == |actions| + 1 && Initial(c, states[0])
    && forall i :: 0 <= i < |actions| ==> Step(c, states[i], actions[i], states[i + 1])
  }

  lemma InitialInv(c: Config, s: State)
    requires Initial(c, s)
    ensures Inv(c, s)
  {
    hide Prefix;
    StartReachesEnd(c, 0);
    assert Queue(s.ring) == [] && Chunks(c, 0, 0) == [];
  }

  lemma {:induction false} RunKeepsInv(c: Config, states: seq<State>, actions: seq<Action>, i: nat)
    requires IsRun(c, states, actions) && i < |states|
    ensures Inv(c, states[i])
  {
    hide Inv, Enabled, Apply, Initial;
    if i == 0 {
      InitialInv(c, states[0]);
    } else {
      RunKeepsInv(c, states, actions, i - 1);
      assert Step(c, states[i - 1], actions[i - 1], states[i - 1 + 1]);
      StepKeepsInv(c, states[i - 1], actions[i - 1]);
    }
  }

  /** Flow control in every reachable state: answers never outrun frames, frames never
      outrun submissions, and submissions stay within the window. */
  lemma FlowIsBounded(c: Config, states: seq<State>, actions: seq<Action>, i: nat)
    requires IsRun(c, states, actions) && i < |states|
    ensures var s := states[i];
      && s.completed <= s.answered <= |s.wire| <= s.submitted <= s.completed + c.window
      && s.submitted <= Count(c)
      && s.ring.tail == Modular.Mod(s.ring.head + s.ring.queued, c.slots)
  {
    hide IsRun;
    RunKeepsInv(c, states, actions, i);
  }

  /** While the producer writes its slot, that slot is neither queued nor being sent. */
  lemma WrittenSlotIsPrivate(c: Config, states: seq<State>, actions: seq<Action>, i: nat)
    requires IsRun(c, states, actions) && i < |states| && states[i].producer in {Filling, Filled}
    ensures var s := states[i];
      && |s.ring.slots| == c.slots > 0 && FreeSlot(s.ring, s.ring.tail)
      && (s.courier in {Sending, Sent} ==> s.ring.head != s.ring.tail)
  {
    hide IsRun;
    RunKeepsInv(c, states, actions, i);
    var r := states[i].ring;
    TailIsFree(r);
    if r.queued > 0 {
      Modular.ModSmall(r.head, |r.slots|);
      assert SlotIndex(r, 0) == r.head;
    }
  }

  /** The prompt tokens a frame carries, and all of them in the order they left. */
  function TokensOf(c: Config, w: Chunk): seq<Token> {
    if w.pos + w.nTokens <= |c.prompt| then c.prompt[w.pos..w.pos + w.nTokens] else []
  }

  function Carried(c: Config, wire: seq<Chunk>): seq<Token> {
    if wire == [] then [] else Carried(c, wire[..|wire| - 1]) + TokensOf(c, wire[|wire| - 1])
  }

  lemma ChunkTokens(c: Config, i: nat)
    requires c.Valid()
    ensures Start(c, i) <= Start(c, i + 1) <= |c.prompt|
    ensures TokensOf(c, ChunkAt(c, i)) == c.prompt[Start(c, i)..Start(c, i + 1)]
  {
    hide Prefix;
  }

  /** The chunks tile the span without gap or overlap. */
  lemma {:induction false} ChunksTile(c: Config, n: nat)
    requires c.Valid()
    ensures Carried(c, Chunks(c, 0, n)) == c.prompt[c.spanStart..Start(c, n)]
  {
    hide ChunkAt, TokensOf, Chunks;
    if n == 0 {
      assert Chunks(c, 0, 0) == [];
    } else {
      ChunksTile(c, n - 1);
      ChunksSnoc(c, 0, n - 1);
      var all := Chunks(c, 0, n);
      assert all[..n - 1] == Chunks(c, 0, n - 1) && all[n - 1] == ChunkAt(c, n - 1);
      ChunkTokens(c, n - 1);
      assert c.prompt[c.spanStart..Start(c, n - 1)] + c.prompt[Start(c, n - 1)..Start(c, n)]
          == c.prompt[c.spanStart..Start(c, n)];
    }
  }

  lemma ChunksChain(c: Config, i: nat)
    requires c.Valid()
    ensures var w, w' := ChunkAt(c, i), ChunkAt(c, i + 1);
      w'.prefixHash == w.resultHash && w'.pos == w.pos + w.nTokens && w'.id == w.id + 1
  {
    hide Prefix;
  }

  /** In every reachable state the frames that left are in request order, chain their
      hashes, and carry exactly the start of the span. */
  lemma WireIsOrdered(c: Config, states: seq<State>, actions: seq<Action>, i: nat)
    requires IsRun(c, states, actions) && i < |states|
    ensures var wire := states[i].wire;
      && (wire != [] ==> wire[0] == ChunkAt(c, 0))
      && (forall k :: 0 <= k < |wire| - 1 ==> Follows(wire[k], wire[k + 1]))
      && Carried(c, wire) == c.prompt[c.spanStart..Start(c, |wire|)]
  {
    hide IsRun, ChunkAt, Start, Carried;
    RunKeepsInv(c, states, actions, i);
    var wire := states[i].wire;
    ChunksTile(c, |wire|);
    forall k | 0 <= k < |wire| - 1
      ensures Follows(wire[k], wire[k + 1])
    {
      ChunksChain(c, k);
    }
  }

  predicate Follows(w: Chunk, w': Chunk) {
    w'.prefixHash == w.resultHash && w'.pos == w.pos + w.nTokens && w'.id == w.id + 1
  }

  /** A chunk as the session part of a WORK frame. */
  function AsWork(c: Config, sid: nat, w: Chunk): WorkerSession.Work {
    WorkerSession.Work(sid, w.pos, TokensOf(c, w), w.prefixHash, w.resultHash, w.reset)
  }

  /** Every frame that leaves is honest: it announces the hash of the tokens before its
      span, and the hash they have together, which is what workers rely on. */
  lemma FramesAreHonest(c: Config, states: seq<State>, actions: seq<Action>, i: nat, sid: nat, k: nat)
    requires IsRun(c, states, actions) && i < |states| && k < |states[i].wire|
    ensures var w := AsWork(c, sid, states[i].wire[k]);
      WorkerSession.Honest(w) && Span(w.prefixHash, w.tokens) == w.resultHash
  {
    hide IsRun, Span, Prefix;
    RunKeepsInv(c, states, actions, i);
    var w := states[i].wire[k];
    assert w == ChunkAt(c, k);
    ChunkTokens(c, k);
    PrefixStep(c.prompt, Start(c, k), Start(c, k + 1));
    assert |c.prompt[..Start(c, k)]| == w.pos && Prefix(c.prompt[..Start(c, k)]) == w.prefixHash;
  }

  /** Each frame that leaves, field by field: only the first carries the reset, every one but
      the last asks for an acknowledgement only, and all but the last are full chunks. */
  lemma FramesInFields(c: Config, states: seq<State>, actions: seq<Action>, i: nat, k: nat)
    requires IsRun(c, states, actions) && i < |states| && k < |states[i].wire|
    ensures var w := states[i].wire[k];
      && k < Count(c) && w.id == c.firstId + k
      && w.pos == c.spanStart + k * c.cap && w.pos + w.nTokens <= c.spanEnd
      && 0 < w.nTokens <= c.cap && (k + 1 < Count(c) ==> w.nTokens == c.cap)
      && (k + 1 == Count(c) <==> w.pos + w.nTokens == c.spanEnd)
      && (w.reset <==> c.reset && k == 0)
      && (w.ackOnly <==> !c.ackOff && k + 1 < Count(c))
  {
    hide IsRun, Prefix, Count, Start;
    RunKeepsInv(c, states, actions, i);
    assert states[i].wire[k] == ChunkAt(c, k);
    ChunkWidth(c, k);
  }

  lemma ChunkWidth(c: Config, k: nat)
    requires c.Valid() && k < Count(c)
    ensures Start(c, k) == c.spanStart + k * c.cap
    ensures 0 < Start(c, k + 1) - Start(c, k) <= c.cap
    ensures k + 1 < Count(c) ==> Start(c, k + 1) - Start(c, k) == c.cap
    ensures Start(c, k + 1) < c.spanEnd <==> k + 1 < Count(c)
  {
    hide Count;
    StartIs(c, k);
    StartIs(c, k + 1);
    StartReachesEnd(c, k);
    StartReachesEnd(c, k + 1);
    assert (k + 1) * c.cap == k * c.cap + c.cap;
  }

  /** Which answers the reader accepts for chunk `i`, field by field. */
  lemma GoodInFields(c: Config, i: nat, f: Frame)
    requires c.Valid()
    ensures Good(c, i, f) <==>
      && f.id == c.firstId + i && f.ok && f.hash == Prefix(c.prompt[..Start(c, i + 1)]) && f.sizeOk
      && (f.kind == Ack ==> i + 1 < Count(c)) && (f.kind == Hidden ==> c.allowHidden)
  {
    hide Prefix, ExpectedHash, Count;
    ExpectedIsPrefix(c, i);
  }

  /** What the caller takes for success: every thread ended without an error. */
  predicate Success(s: State) {
    && s.producer == Finished && s.courier == Exited && !s.sendFailed
    && s.reader == Stopped && !s.readFailed
  }

  /** Success means the whole span left as its chunks, every answer matched its chunk's
      id and prefix hash, and the last one was a real result. */
  lemma SuccessMeans(c: Config, states: seq<State>, actions: seq<Action>, i: nat)
    requires IsRun(c, states, actions) && i < |states| && Success(states[i])
    ensures var s := states[i];
      && s.wire == Chunks(c, 0, Count(c)) && Start(c, Count(c)) == c.spanEnd
      && |s.log| == Count(c) > 0
      && (forall k :: 0 <= k < |s.log| ==>
            s.log[k].id == c.firstId + k && s.log[k].ok && s.log[k].hash == Prefix(c.prompt[..Start(c, k + 1)]))
      && s.log[|s.log| - 1].kind != Ack
  {
    hide IsRun, Prefix, ExpectedHash, Count;
    RunKeepsInv(c, states, actions, i);
    var s := states[i];
    StartReachesEnd(c, s.submitted);
    StartReachesEnd(c, 0);
    StartReachesEnd(c, Count(c));
    forall k | 0 <= k < |s.log|
      ensures s.log[k].hash == Prefix(c.prompt[..Start(c, k + 1)])
    {
      assert Good(c, k, s.log[k]);
      ExpectedIsPrefix(c, k);
    }
    assert Good(c, |s.log| - 1, s.log[|s.log| - 1]);
  }

  /** Actions of a run in which nothing fails: no send, read or evaluation error, and the
      worker chain answers each frame in turn with a result the reader accepts. */
  ghost predicate Healthy(c: Config, s: State, a: Action)
    requires c.Valid()
  {
    match a
    case Answer(f) => Good(c, s.answered, f)
    case WindowClosed | AcquireRefused | EvalFailed | EnqueueRefused | SendError | ReadError => false
    case _ => true
  }

  ghost predicate HealthyInv(c: Config, s: State)
    requires c.Valid()
  {
    && !s.sendFailed && !s.readFailed && s.producer != Cancelled
    && s.answered == s.completed + |s.inbox|
    && forall j :: 0 <= j < |s.inbox| ==> Good(c, s.completed + j, s.inbox[j])
  }

  /** Steps taken so far: nine per chunk, plus the two threads' exits. */
  function Progress(s: State): int {
    4 * s.submitted + (match s.producer
                       case WaitWindow => 0 case WaitSlot => 1 case Filling => 2 case Filled => 3
                       case Finished => 1 case Cancelled => 0)
    + 3 * (s.submitted - s.ring.queued) + (match s.courier
                                           case Idle => 0 case Sending => 1 case Sent => 2 case Exited => 1)
    + s.answered + s.completed
  }

  function TotalSteps(c: Config): nat
    requires c.Valid()
  {
    9 * Count(c) + 2
  }

  lemma HealthyStep(c: Config, s: State, a: Action)
    requires Inv(c, s) && HealthyInv(c, s) && Enabled(c, s, a) && Healthy(c, s, a)
    ensures HealthyInv(c, Next(c, s, a)) && Progress(Next(c, s, a)) == Progress(s) + 1
  {
    hide RingInv, ProducerInv, Good, Count, NextChunk;
    ApplyIsCallable(c, s, a);
    if a.Receive? { assert Good(c, s.completed + 0, s.inbox[0]); }
  }

  lemma ProgressIsBounded(c: Config, s: State)
    requires Inv(c, s) && HealthyInv(c, s)
    ensures Progress(s) <= TotalSteps(c)
    ensures Success(s) ==> Progress(s) == TotalSteps(c)
  {
    hide Queue, Chunks, Good, Count, Start, Prefix, SendRing.Ok;
    QueueWithin(s.ring);
    StartReachesEnd(c, s.submitted);
  }

  lemma QueueWithin(r: Ring<Chunk>)
    requires Ok(r)
    ensures r.queued <= |r.slots| && |r.slots| > 0
  {
  }

  /** Without failures no unfinished state is stuck: some healthy action is enabled. */
  lemma NotStuck(c: Config, s: State) returns (a: Action)
    requires Inv(c, s) && HealthyInv(c, s) && !Success(s)
    ensures Enabled(c, s, a) && Healthy(c, s, a)
  {
    hide Queue, Chunks, Count, Start, Prefix, ExpectedHash, SendRing.Ok;
    QueueWithin(s.ring);
    StartReachesEnd(c, s.submitted);
    if s.courier == Sending { return FrameLeft; }
    if s.courier == Sent { return ReleaseHead; }
    if s.courier == Idle && s.ring.queued > 0 { return StartSend; }
    if s.inbox != [] && s.reader == Reading { return Receive; }
    if s.answered < |s.wire| {
      return Answer(Frame(c.firstId + s.answered, true, ExpectedHash(c, s.answered), Logits, true));
    }
    match s.producer
    case WaitSlot => a := Acquire;
    case Filling => a := Fill;
    case Filled => a := Enqueue;
    case WaitWindow => a := if s.pos < c.spanEnd then OpenWindow else Finish;
    case Finished => a := CourierExit;
  }

  ghost predicate IsHealthyRun(c: Config, states: seq<State>, actions: seq<Action>) {
    && IsRun(c, states, actions)
    && forall i :: 0 <= i < |actions| ==> Healthy(c, states[i], actions[i])
  }

  lemma {:induction false} HealthyRun(c: Config, states: seq<State>, actions: seq<Action>, i: nat)
    requires IsHealthyRun(c, states, actions) && i < |states|
    ensures Inv(c, states[i]) && HealthyInv(c, states[i]) && Progress(states[i]) == i
  {
    hide Inv, HealthyInv, Enabled, Healthy, Apply, Progress;
    RunKeepsInv(c, states, actions, i);
    if i == 0 {
      StartsHealthy(c, states[0]);
    } else {
      HealthyRun(c, states, actions, i - 1);
      assert Step(c, states[i - 1], actions[i - 1], states[i - 1 + 1]);
      HealthyStep(c, states[i - 1], actions[i - 1]);
    }
  }

  lemma StartsHealthy(c: Config, s: State)
    requires Initial(c, s)
    ensures HealthyInv(c, s) && Progress(s) == 0
  {
    hide Prefix;
  }

  /** Every failure-free interleaving ends, after the same number of steps, in success:
      no schedule runs longer, and none stops earlier. */
  lemma HealthyRunsSucceed(c: Config, states: seq<State>, actions: seq<Action>)
    requires IsHealthyRun(c, states, actions)
    ensures |actions| <= TotalSteps(c)
    ensures (forall a :: Enabled(c, states[|actions|], a) ==> !Healthy(c, states[|actions|], a)) ==>
      Success(states[|actions|]) && |actions| == TotalSteps(c)
  {
    hide Inv, HealthyInv, Progress, Enabled, Healthy, TotalSteps;
    var last := states[|actions|];
    HealthyRun(c, states, actions, |actions|);
    ProgressIsBounded(c, last);
    if !Success(last) {
      var a := NotStuck(c, last);
    }
  }

  /** Every thread has ended, however the prefill went. */
  predicate Ended(s: State) {
    s.producer in {Finished, Cancelled} && s.courier == Exited && s.reader == Stopped
  }

  /** Actions that need no new failure: a read fails only once a failure elsewhere has shut
      the socket down. */
  ghost predicate Unforced(s: State, a: Action) {
    match a
    case EvalFailed | SendError => false
    case ReadError => s.stop
    case _ => true
  }

  /** Whatever has failed so far, some action is enabled until every thread has ended. */
  lemma NeverStuck(c: Config, s: State) returns (a: Action)
    requires Inv(c, s) && !Ended(s)
    ensures Enabled(c, s, a) && Unforced(s, a)
  {
    hide Queue, Chunks, Count, Start, Prefix, ExpectedHash, SendRing.Ok;
    QueueWithin(s.ring);
    StartReachesEnd(c, s.submitted);
    if s.courier == Sending { return FrameLeft; }
    if s.courier == Sent { return ReleaseHead; }
    if s.courier == Idle && s.stop { return CourierExit; }
    if s.courier == Idle && s.ring.queued > 0 { return StartSend; }
    if s.reader == Reading && s.stop { return ReadError; }
    if s.reader == Reading && s.inbox != [] { return Receive; }
    if s.reader == Reading && s.answered < |s.wire| {
      return Answer(Frame(0, false, 0, Logits, false));
    }
    match s.producer
    case WaitSlot => a := if s.stop then AcquireRefused else Acquire;
    case Filling => a := Fill;
    case Filled => a := if s.stop then EnqueueRefused else Enqueue;
    case WaitWindow => a := if s.pos >= c.spanEnd then Finish else if s.done then WindowClosed else OpenWindow;
    case Finished => a := CourierExit;
  }

  /** How far all threads are; every action of any run moves it on. */
  function Effort(s: State): int {
    4 * s.submitted + (match s.producer
                       case WaitWindow => 0 case WaitSlot => 1 case Filling => 2 case Filled => 3
                       case Finished => 4 case Cancelled => 4)
    + 3 * (s.submitted - s.ring.queued) + (match s.courier
                                           case Idle => 0 case Sending => 1 case Sent => 2 case Exited => 3)
    + 2 * s.answered - |s.inbox| + (if s.reader == Stopped then 1 else 0)
  }

  lemma EffortRises(c: Config, s: State, a: Action)
    requires Inv(c, s) && Enabled(c, s, a)
    ensures Effort(Next(c, s, a)) > Effort(s)
  {
    hide RingInv, ProducerInv, ReaderInv, Good, Count, NextChunk;
    ApplyIsCallable(c, s, a);
  }

  lemma EffortIsBounded(c: Config, s: State)
    requires Inv(c, s)
    ensures 0 <= Effort(s) <= 9 * Count(c) + 8
  {
    hide Queue, Chunks, Good, Count, Start, Prefix, SendRing.Ok;
    QueueWithin(s.ring);
  }

  lemma {:induction false} RunIsShort(c: Config, states: seq<State>, actions: seq<Action>, i: nat)
    requires IsRun(c, states, actions) && i < |states|
    ensures i <= Effort(states[i])
  {
    hide Inv, Enabled, Apply, Effort, Initial;
    RunKeepsInv(c, states, actions, i);
    if i == 0 {
      EffortIsBounded(c, states[0]);
    } else {
      RunIsShort(c, states, actions, i - 1);
      RunKeepsInv(c, states, actions, i - 1);
      assert Step(c, states[i - 1], actions[i - 1], states[i - 1 + 1]);
      EffortRises(c, states[i - 1], actions[i - 1]);
    }
  }

  /** Every interleaving, with any failures and any answers, comes to an end, and where it
      can go no further every thread has ended. */
  lemma EveryRunEnds(c: Config, states: seq<State>, actions: seq<Action>)
    requires IsRun(c, states, actions)
    ensures |actions| <= 9 * Count(c) + 8
    ensures (forall a :: Enabled(c, states[|actions|], a) ==> !Unforced(states[|actions|], a)) ==> Ended(states[|actions|])
  {
    hide Inv, Effort, Enabled, Unforced, Count;
    var last := states[|actions|];
    RunKeepsInv(c, states, actions, |actions|);
    RunIsShort(c, states, actions, |actions|);
    EffortIsBounded(c, last);
    if !Ended(last) {
      var a := NeverStuck(c, last);
    }
  }
}
