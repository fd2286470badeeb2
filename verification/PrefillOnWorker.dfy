/** The two ends of a prefill together: what the pipeline puts on the wire, fed in order to
    a worker whose engine succeeds. */
module PrefillOnWorker {
  import opened TokenHash
  import opened WorkerSession
  import P = Prefill

  const SUCCEEDS: Engine := Engine(true, Cleared, true, [], false)

  /** A worker's sessions after some frames. */
  function After(ss: Sessions, ws: seq<Work>): Sessions {
    if ws == [] then ss else WorkStep(After(ss, ws[..|ws| - 1]), ws[|ws| - 1], SUCCEEDS).0
  }

  function Works(c: P.Config, sid: nat, wire: seq<P.Chunk>): (ws: seq<Work>)
    ensures |ws| == |wire| && forall k :: 0 <= k < |ws| ==> ws[k] == P.AsWork(c, sid, wire[k])
  {
    seq(|wire|, k requires 0 <= k < |wire| => P.AsWork(c, sid, wire[k]))
  }

  /** A worker that can take the span: it is told to reset and the span starts the prompt,
      or it holds exactly the prompt before the span. */
  ghost predicate Prepared(c: P.Config, sid: nat, ss: Sessions) {
    && c.Valid()
    && if c.reset then c.spanStart == 0
       else Holds(c, sid, ss, c.spanStart)
  }

  ghost predicate Holds(c: P.Config, sid: nat, ss: Sessions, n: nat)
    requires n <= |c.prompt|
  {
    var s := Lookup(ss, sid);
    s.timeline == c.prompt[..n] && Truthful(s) && (s.ready || n == 0)
  }

  /** In every reachable state of the pipeline: the worker answers DONE to every frame that
      left, with the hash the reader expects, and holds the prompt up to the last of them. */
  lemma {:induction false} WorkerFollows(c: P.Config, states: seq<P.State>, actions: seq<P.Action>, i: nat,
                                         sid: nat, ss: Sessions, n: nat)
    requires c.Valid() && P.IsRun(c, states, actions) && i < |states| && Prepared(c, sid, ss) && n <= |states[i].wire|
    ensures var ws := Works(c, sid, states[i].wire);
      && (forall k :: 0 <= k < n ==> Answered(c, ss, ws, k))
      && P.Start(c, n) <= |c.prompt|
      && (n > 0 ==> sid in After(ss, ws[..n]) && Holds(c, sid, After(ss, ws[..n]), P.Start(c, n)))
  {
    hide P.IsRun, WorkStep, Prefix, Span, Holds, Prepared, P.Start, P.ExpectedHash, P.AsWork;
    var ws := Works(c, sid, states[i].wire);
    if n > 0 {
      WorkerFollows(c, states, actions, i, sid, ss, n - 1);
      FrameIs(c, states, actions, i, sid, n - 1);
      assert ws[..n][..n - 1] == ws[..n - 1];
      if n == 1 { assert ws[..0] == [] && After(ss, ws[..0]) == ss; }
      FollowStep(c, sid, ss, After(ss, ws[..n - 1]), ws[n - 1], n - 1);
    } else {
      StartWithin(c);
    }
  }

  lemma StartWithin(c: P.Config)
    requires c.Valid()
    ensures P.Start(c, 0) == c.spanStart <= |c.prompt|
  {
  }

  lemma FollowStep(c: P.Config, sid: nat, ss: Sessions, before: Sessions, w: Work, k: nat)
    requires Prepared(c, sid, ss) && P.Start(c, k) <= P.Start(c, k + 1) <= |c.prompt|
    requires if k == 0 then before == ss else sid in before && Holds(c, sid, before, P.Start(c, k))
    requires w.sid == sid && w.pos0 == P.Start(c, k) && w.tokens == c.prompt[P.Start(c, k)..P.Start(c, k + 1)]
    requires w.prefixHash == Prefix(c.prompt[..w.pos0]) && Span(w.prefixHash, w.tokens) == w.resultHash
    requires w.resultHash == P.ExpectedHash(c, k) && (w.reset <==> c.reset && k == 0)
    ensures WorkStep(before, w, SUCCEEDS).1 == Done(P.ExpectedHash(c, k))
    ensures var after := WorkStep(before, w, SUCCEEDS).0;
      sid in after && Holds(c, sid, after, P.Start(c, k + 1))
  {
    hide WorkStep, Prefix, Span, P.ExpectedHash;
    StartWithin(c);
    var t := c.prompt[..P.Start(c, k)];
    ContinuationIsDone(before, w, SUCCEEDS, t);
    assert t + w.tokens == c.prompt[..P.Start(c, k + 1)];
  }

  /** Frame `k` is answered DONE, with the hash of the prompt through its chunk. */
  ghost predicate Answered(c: P.Config, ss: Sessions, ws: seq<Work>, k: nat)
    requires k < |ws| && c.Valid()
  {
    WorkStep(After(ss, ws[..k]), ws[k], SUCCEEDS).1 == Done(P.ExpectedHash(c, k))
  }

  lemma FrameIs(c: P.Config, states: seq<P.State>, actions: seq<P.Action>, i: nat, sid: nat, k: nat)
    requires P.IsRun(c, states, actions) && i < |states| && k < |states[i].wire| && c.Valid()
    ensures var w := P.AsWork(c, sid, states[i].wire[k]);
      && P.Start(c, k) <= P.Start(c, k + 1) <= |c.prompt|
      && w.sid == sid && w.pos0 == P.Start(c, k) && w.tokens == c.prompt[P.Start(c, k)..P.Start(c, k + 1)]
      && w.prefixHash == Prefix(c.prompt[..w.pos0]) && Span(w.prefixHash, w.tokens) == w.resultHash
      && w.resultHash == P.ExpectedHash(c, k)
      && (w.reset <==> c.reset && k == 0)
  {
    hide P.IsRun, Prefix, Span, P.ExpectedHash;
    P.RunKeepsInv(c, states, actions, i);
    assert states[i].wire[k] == P.ChunkAt(c, k);
    P.ChunkTokens(c, k);
    P.PrefixStep(c.prompt, P.Start(c, k), P.Start(c, k + 1));
    P.ExpectedIsPrefix(c, k);
  }

  /** So a prefill that succeeds has left the worker with exactly the prompt through the
      span's end. */
  lemma SuccessFillsWorker(c: P.Config, states: seq<P.State>, actions: seq<P.Action>, i: nat, sid: nat, ss: Sessions)
    requires c.Valid() && P.IsRun(c, states, actions) && i < |states| && Prepared(c, sid, ss) && P.Success(states[i])
    ensures var after := After(ss, Works(c, sid, states[i].wire));
      sid in after && after[sid].timeline == c.prompt[..c.spanEnd]
  {
    hide P.IsRun, P.Success, Prefix;
    var n := |states[i].wire|;
    P.SuccessMeans(c, states, actions, i);
    WorkerFollows(c, states, actions, i, sid, ss, n);
    assert Works(c, sid, states[i].wire)[..n] == Works(c, sid, states[i].wire);
  }
}
