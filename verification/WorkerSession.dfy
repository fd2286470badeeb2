/** A worker's KV sessions: each keeps a token timeline inside the engine and a cached
    hash of it. WORK frames, resets, failed evaluations and snapshot loads update the
    table in place; the announced prefix hash decides whether a span may be evaluated. */
module WorkerSession {
  import opened TokenHash

  /** `timeline` is the engine's own token list and `ready` its validity flag; `hash` and
      `valid` are the worker's cached `token_hash` and `token_hash_valid`. */
  datatype Session = Session(timeline: seq<Token>, ready: bool, hash: Hash, valid: bool)

  type Sessions = map<nat, Session>

  /** The session part of a WORK frame. */
  datatype Work = Work(sid: nat, pos0: nat, tokens: seq<Token>,
                       prefixHash: Hash, resultHash: Hash, reset: bool)

  /** A reset empties the timeline first and can fail after that; it can also be refused
      before it touches anything. */
  datatype Reset = Cleared | FailedEmptied | RefusedUntouched

  /** What the engine answers while one frame is handled: whether a missing session can be
      created, how a reset ends, whether the evaluation or payload load succeeds and what
      it leaves behind otherwise. */
  datatype Engine = Engine(created: bool, reset: Reset, runOk: bool, runLeaves: seq<Token>, runReady: bool)

  datatype Error = BadSpanHash | NoSession | ResetFailed | PrefixMismatch | EvalFailed | LoadRefused | LoadFailed
  datatype Reply = Done(hash: Hash) | Refused(error: Error)

  datatype Event =
    | WorkFrame(work: Work, engine: Engine)
    | SnapshotLoad(sid: nat, tokens: seq<Token>, tokenHash: Hash, matchesWorker: bool, engine: Engine)
    | ClearSessions

  /** A fresh session is zeroed: an empty timeline and no cached hash. */
  const FRESH: Session := Session([], false, 0, false)

  function Lookup(ss: Sessions, sid: nat): Session {
    if sid in ss then ss[sid] else FRESH
  }

  function Emptied(s: Session): Session { s.(timeline := [], ready := false) }

  /** The engine evaluates a span at the end of a valid timeline, and at position 0
      whenever its timeline is not valid; either way it appends the span. */
  predicate EvalSucceeds(s: Session, w: Work, e: Engine) {
    e.runOk && w.pos0 == if s.ready then |s.timeline| else 0
  }

  /** The session once the reset flag and the lazily recomputed hash are dealt with. */
  function Prepared(s: Session, reset: bool): Session {
    if reset then Session([], false, INIT, true)
    else if s.valid then s
    else s.(hash := Prefix(s.timeline), valid := true)
  }

  function Evaluated(p: Session, w: Work, e: Engine): (Session, Reply) {
    if p.hash != w.prefixHash then (p, Refused(PrefixMismatch))
    else if EvalSucceeds(p, w, e) then
      (Session(p.timeline + w.tokens, true, w.resultHash, true), Done(w.resultHash))
    else (p.(timeline := e.runLeaves, ready := e.runReady, valid := false), Refused(EvalFailed))
  }

  function WorkStep(ss: Sessions, w: Work, e: Engine): (Sessions, Reply) {
    if Span(w.prefixHash, w.tokens) != w.resultHash then (ss, Refused(BadSpanHash))
    else if w.sid !in ss && !e.created then (ss, Refused(NoSession))
    else
      var s := Lookup(ss, w.sid);
      if w.reset && e.reset == RefusedUntouched then (ss[w.sid := s], Refused(ResetFailed))
      else if w.reset && e.reset == FailedEmptied then (ss[w.sid := Emptied(s)], Refused(ResetFailed))
      else
        var (s', reply) := Evaluated(Prepared(s, w.reset), w, e);
        (ss[w.sid := s'], reply)
  }

  function LoadStep(ss: Sessions, sid: nat, tokens: seq<Token>, tokenHash: Hash,
                    matchesWorker: bool, e: Engine): (Sessions, Reply) {
    if Prefix(tokens) != tokenHash || !matchesWorker then (ss, Refused(LoadRefused))
    else if sid !in ss && !e.created then (ss, Refused(NoSession))
    else if e.runOk then (ss[sid := Session(tokens, true, tokenHash, true)], Done(tokenHash))
    else
      (ss[sid := Lookup(ss, sid).(timeline := e.runLeaves, ready := e.runReady, valid := false)], Refused(LoadFailed))
  }

  function Step(ss: Sessions, ev: Event): (Sessions, Reply) {
    match ev
    case WorkFrame(w, e) => WorkStep(ss, w, e)
    case SnapshotLoad(sid, tokens, hash, ok, e) => LoadStep(ss, sid, tokens, hash, ok, e)
    case ClearSessions => (map[], Done(0))
  }

  function Run(ss: Sessions, evs: seq<Event>): Sessions
    decreases |evs|
  {
    if evs == [] then ss else Run(Step(ss, evs[0]).0, evs[1..])
  }

  /** A cached hash that is marked valid is the timeline's hash. */
  predicate Truthful(s: Session) { s.valid ==> s.hash == Prefix(s.timeline) }

  ghost predicate AllTruthful(ss: Sessions) { forall sid <- ss :: Truthful(ss[sid]) }

  /** What a failed reset can leave: a cached hash of tokens that are gone. The engine then
      has nothing, and says so. */
  predicate Sound(s: Session) { Truthful(s) || (s.timeline == [] && !s.ready) }

  ghost predicate Inv(ss: Sessions) { forall sid <- ss :: Sound(ss[sid]) }

  /** The coordinator announces the hash of the `pos0` tokens before the span. */
  ghost predicate Honest(w: Work) { exists p: seq<Token> :: |p| == w.pos0 && Prefix(p) == w.prefixHash }

  ghost predicate HonestEvent(ev: Event) { ev.WorkFrame? ==> Honest(ev.work) }

  class Worker {
    var sessions: Sessions

    constructor ()
      ensures sessions == map[] && Inv(sessions)
    {
      sessions := map[];
    }

    /** The session-table part of handling one WORK payload, in the source's order:
        span hash, session lookup, reset, hash refresh, prefix check, evaluation. */
    method ProcessWork(w: Work, e: Engine) returns (reply: Reply)
      modifies this
      ensures (sessions, reply) == WorkStep(old(sessions), w, e)
      ensures old(Inv(sessions)) && Honest(w) ==> Inv(sessions)
    {
      if Inv(sessions) && Honest(w) { WorkKeepsInv(sessions, w, e); }
      var announced := UpdateSpan(w.prefixHash, w.tokens);
      if announced != w.resultHash { return Refused(BadSpanHash); }
      if w.sid !in sessions && !e.created { return Refused(NoSession); }
      var s := Lookup(sessions, w.sid);
      if w.reset {
        if e.reset != Cleared {
          sessions := sessions[w.sid := if e.reset == FailedEmptied then Emptied(s) else s];
          return Refused(ResetFailed);
        }
        s := Session([], false, INIT, true);
      } else if !s.valid {
        var live := UpdateSpan(INIT, s.timeline);
        s := s.(hash := live, valid := true);
      }
      if s.hash != w.prefixHash {
        reply := Refused(PrefixMismatch);
      } else if EvalSucceeds(s, w, e) {
        s := Session(s.timeline + w.tokens, true, w.resultHash, true);
        reply := Done(w.resultHash);
      } else {
        s := s.(timeline := e.runLeaves, ready := e.runReady, valid := false);
        reply := Refused(EvalFailed);
      }
      sessions := sessions[w.sid := s];
    }

    /** The session-table part of handling a snapshot load. */
    method LoadSnapshot(sid: nat, tokens: seq<Token>, tokenHash: Hash, matchesWorker: bool, e: Engine)
      returns (reply: Reply)
      modifies this
      ensures (sessions, reply) == LoadStep(old(sessions), sid, tokens, tokenHash, matchesWorker, e)
      ensures old(Inv(sessions)) ==> Inv(sessions)
    {
      var live := UpdateSpan(INIT, tokens);
      if live != tokenHash || !matchesWorker { return Refused(LoadRefused); }
      if sid !in sessions && !e.created { return Refused(NoSession); }
      var s := Lookup(sessions, sid);
      if e.runOk {
        s := Session(tokens, true, tokenHash, true);
        reply := Done(tokenHash);
      } else {
        s := s.(timeline := e.runLeaves, ready := e.runReady, valid := false);
        reply := Refused(LoadFailed);
      }
      sessions := sessions[sid := s];
    }
  }

  /** Where a span may be evaluated: at the end of the timeline, except that position 0 is
      taken on a timeline the engine calls invalid, which then must hash like no tokens. */
  ghost predicate Placed(p: Session, pos0: nat) {
    |p.timeline| == pos0 || (pos0 == 0 && !p.ready && Prefix(p.timeline) == INIT)
  }

  /** Evaluating on a truthful session: a span runs only on a timeline that hashes to its
      announced prefix, and the timeline then hashes to the announced result. */
  lemma EvaluatedIsTruthful(p: Session, w: Work, e: Engine)
    requires p.hash == Prefix(p.timeline) && Span(w.prefixHash, w.tokens) == w.resultHash
    ensures var (s', reply) := Evaluated(p, w, e);
      && Truthful(s')
      && (reply.Done? ==>
            && Prefix(p.timeline) == w.prefixHash
            && s'.timeline == p.timeline + w.tokens
            && Prefix(s'.timeline) == w.resultHash == reply.hash)
  {
    SpanConcat(INIT, p.timeline, w.tokens);
  }

  lemma EmptyPrefix(p: seq<Token>)
    ensures |p| == 0 ==> Prefix(p) == INIT
  {
  }

  /** The same for any sound session and an honest frame, with the position as well. */
  lemma EvaluatedIsSound(p: Session, w: Work, e: Engine)
    requires Sound(p) && p.valid && Span(w.prefixHash, w.tokens) == w.resultHash && Honest(w)
    ensures var (s', reply) := Evaluated(p, w, e);
      && Sound(s')
      && (reply.Done? ==>
            && Prefix(p.timeline) == w.prefixHash && Placed(p, w.pos0)
            && s'.timeline == p.timeline + w.tokens
            && Prefix(s'.timeline) == w.resultHash == reply.hash)
  {
    hide Prefix, Span;
    var announced :| |announced| == w.pos0 && Prefix(announced) == w.prefixHash;
    EmptyPrefix(announced);
    EmptyPrefix(p.timeline);
    if p.hash == Prefix(p.timeline) { EvaluatedIsTruthful(p, w, e); }
  }

  /** A session that a failed reset left behind evaluates no honest span: the worker
      refuses every one of them until a reset succeeds. */
  lemma StaleNeverEvaluates(ss: Sessions, w: Work, e: Engine)
    requires w.sid in ss && Sound(ss[w.sid]) && !Truthful(ss[w.sid]) && Honest(w) && !w.reset
    ensures WorkStep(ss, w, e).1.Refused?
    ensures WorkStep(ss, w, e).1 == Refused(EvalFailed) ==> Truthful(WorkStep(ss, w, e).0[w.sid])
  {
    hide Prefix, Span;
    var announced :| |announced| == w.pos0 && Prefix(announced) == w.prefixHash;
    EmptyPrefix(announced);
    EmptyPrefix(ss[w.sid].timeline);
  }

  lemma WorkKeepsInv(ss: Sessions, w: Work, e: Engine)
    requires Inv(ss) && Honest(w)
    ensures Inv(WorkStep(ss, w, e).0)
  {
    hide Honest, Span;
    if Span(w.prefixHash, w.tokens) == w.resultHash {
      PreparedIsSound(Lookup(ss, w.sid), w.reset);
      EvaluatedIsSound(Prepared(Lookup(ss, w.sid), w.reset), w, e);
    }
  }

  lemma PreparedIsSound(s: Session, reset: bool)
    requires Sound(s)
    ensures Sound(Prepared(s, reset)) && Prepared(s, reset).valid
  {
    EmptyPrefix([]);
  }

  lemma StepKeepsInv(ss: Sessions, ev: Event)
    requires Inv(ss) && HonestEvent(ev)
    ensures Inv(Step(ss, ev).0)
  {
    if ev.WorkFrame? { WorkKeepsInv(ss, ev.work, ev.engine); }
  }

  /** Every run of honest WORK, failed and successful resets, failed evaluations, snapshot
      loads and clears. */
  lemma {:induction false} RunKeepsInv(ss: Sessions, evs: seq<Event>)
    requires Inv(ss) && forall ev <- evs :: HonestEvent(ev)
    ensures Inv(Run(ss, evs))
    decreases |evs|
  {
    hide Inv, HonestEvent, Step;
    if evs != [] {
      StepKeepsInv(ss, evs[0]);
      RunKeepsInv(Step(ss, evs[0]).0, evs[1..]);
    }
  }

  /** What a DONE reply certifies after any honest run that starts with no sessions. */
  lemma DoneMeansPrefixMatched(evs: seq<Event>, w: Work, e: Engine)
    requires (forall ev <- evs :: HonestEvent(ev)) && Honest(w)
    requires WorkStep(Run(map[], evs), w, e).1.Done?
    ensures var before := Run(map[], evs);
      var after := WorkStep(before, w, e).0;
      var base := if w.reset then Emptied(FRESH) else Lookup(before, w.sid);
      && w.sid in after
      && Prefix(base.timeline) == w.prefixHash && Placed(base, w.pos0)
      && after[w.sid].timeline == base.timeline + w.tokens
      && Prefix(after[w.sid].timeline) == w.resultHash
      && (forall sid <- before :: sid != w.sid ==> sid in after && after[sid] == before[sid])
  {
    hide Honest, Span;
    RunKeepsInv(map[], evs);
    var before := Run(map[], evs);
    PreparedIsSound(Lookup(before, w.sid), w.reset);
    EvaluatedIsSound(Prepared(Lookup(before, w.sid), w.reset), w, e);
  }

  // ---- When the stronger claim, that every valid hash is the timeline's, holds ----

  /** The one step that breaks it: a reset that fails after emptying the timeline of a
      session whose cached hash is valid and not that of no tokens. */
  predicate LeavesStale(ss: Sessions, ev: Event) {
    && ev.WorkFrame? && ev.work.reset && ev.engine.reset == FailedEmptied
    && Span(ev.work.prefixHash, ev.work.tokens) == ev.work.resultHash
    && ev.work.sid in ss && ss[ev.work.sid].valid && ss[ev.work.sid].hash != INIT
  }

  /** Exactly that step breaks it, whatever the frames announce. */
  lemma TruthLostExactly(ss: Sessions, ev: Event)
    requires AllTruthful(ss)
    ensures AllTruthful(Step(ss, ev).0) <==> !LeavesStale(ss, ev)
  {
    hide Prefix, Span;
    if ev.WorkFrame? {
      WorkTruth(ss, ev.work, ev.engine);
      var after := Step(ss, ev).0;
      if LeavesStale(ss, ev) { assert !Truthful(after[ev.work.sid]); }
    }
  }

  lemma WorkTruth(ss: Sessions, w: Work, e: Engine)
    requires AllTruthful(ss)
    ensures var after := WorkStep(ss, w, e).0;
      && (forall sid <- after :: sid != w.sid ==> sid in ss && after[sid] == ss[sid])
      && (w.sid in after ==> (Truthful(after[w.sid]) <==> !LeavesStale(ss, WorkFrame(w, e))))
      && (LeavesStale(ss, WorkFrame(w, e)) ==> w.sid in after)
  {
    hide Prefix, Span;
    EmptyPrefix([]);
    if Span(w.prefixHash, w.tokens) == w.resultHash {
      EvaluatedIsTruthful(Prepared(Lookup(ss, w.sid), w.reset), w, e);
    }
  }

  ghost predicate NeverStale(ss: Sessions, evs: seq<Event>)
    decreases |evs|
  {
    evs != [] ==> !LeavesStale(ss, evs[0]) && NeverStale(Step(ss, evs[0]).0, evs[1..])
  }

  lemma {:induction false} RunKeepsTruth(ss: Sessions, evs: seq<Event>)
    requires AllTruthful(ss) && NeverStale(ss, evs)
    ensures AllTruthful(Run(ss, evs))
    decreases |evs|
  {
    hide AllTruthful, LeavesStale, Step;
    if evs != [] {
      TruthLostExactly(ss, evs[0]);
      RunKeepsTruth(Step(ss, evs[0]).0, evs[1..]);
    }
  }

  lemma HashOfOneToken()
    ensures Prefix([0]) != INIT
  {
    assert [0 as Token][..0] == [];
    var h0, h1, h2: Hash := 4953163356653287321, 11126445248426326267, 12196949897413546625;
    assert Mix(INIT, 0) == h0 && Mix(h0, 0) == h1 && Mix(h1, 0) == h2 && Mix(h2, 0) != INIT;
    ZeroBytes(INIT, 4);
    ZeroBytes(h0, 3);
    ZeroBytes(h1, 2);
    ZeroBytes(h2, 1);
  }

  lemma ZeroBytes(h: Hash, n: nat)
    requires n > 0
    ensures MixBytes(h, 0, n) == MixBytes(Mix(h, 0), 0, n - 1) && MixBytes(h, 0, 0) == h
  {
    hide Mix;
    assert (0 as Token) & 0xff == 0 && (0 as Token) >> 8 == 0;
  }

  /** The claim does fail: after an evaluated span and a reset that fails once it has
      emptied the timeline, the cached hash is that of a token that is gone, and a frame
      that announces it at position 0 is answered DONE on no tokens at all. No honest
      frame announces that. */
  lemma FailedResetLosesTruth() returns (evs: seq<Event>, w: Work, e: Engine)
    ensures forall ev <- evs :: HonestEvent(ev)
    ensures var before := Run(map[], evs);
      && w.sid in before && before[w.sid].timeline == [] && !Truthful(before[w.sid])
      && WorkStep(before, w, e).1.Done? && Prefix([]) != w.prefixHash && !Honest(w)
  {
    HashOfOneToken();
    hide Span;
    EmptyPrefix([]);
    var h := Prefix([0]);
    var first := Work(0, 0, [0], INIT, h, true);
    e := Engine(true, Cleared, true, [], false);
    var fails := e.(reset := FailedEmptied);
    evs := [WorkFrame(first, e), WorkFrame(first, fails)];
    w := Work(0, 0, [0], h, Span(h, [0]), false);
    var none: seq<Token> := [];
    assert Honest(first) by { assert |none| == 0 && Prefix(none) == INIT; }
    var one := Step(map[], evs[0]).0;
    assert one == map[0 := Session([] + [0], true, h, true)];
    var two := Step(one, evs[1]).0;
    assert two == map[0 := Session([], false, h, true)];
    assert evs[1..] == [evs[1]] && evs[1..][1..] == [];
    assert Run(map[], evs) == Run(one, evs[1..]) == Run(two, []) == two;
    forall p: seq<Token> | |p| == 0 ensures Prefix(p) != h { EmptyPrefix(p); }
  }

  // ---- When a frame is answered DONE ----

  /** Exactly when the answer is DONE, from the frame, the session before it and the engine:
      nothing else refuses a frame. */
  lemma DoneExactly(ss: Sessions, w: Work, e: Engine)
    ensures WorkStep(ss, w, e).1 == Done(w.resultHash) <==>
      && Span(w.prefixHash, w.tokens) == w.resultHash && (w.sid in ss || e.created) && e.runOk
      && if w.reset then e.reset == Cleared && w.prefixHash == INIT && w.pos0 == 0
         else var s := Lookup(ss, w.sid);
           && w.prefixHash == (if s.valid then s.hash else Prefix(s.timeline))
           && w.pos0 == (if s.ready then |s.timeline| else 0)
    ensures WorkStep(ss, w, e).1.Done? ==> WorkStep(ss, w, e).1 == Done(w.resultHash)
    ensures WorkStep(ss, w, e).1.Done? ==>
      WorkStep(ss, w, e).0 == ss[w.sid := Session((if w.reset then [] else Lookup(ss, w.sid).timeline) + w.tokens,
                                                  true, w.resultHash, true)]
  {
    hide Span, Prefix;
  }

  /** A worker that holds exactly the tokens before a consistent span, with its hash cached
      or not, evaluates it; so does any worker told to reset first, at the beginning. */
  lemma ContinuationIsDone(ss: Sessions, w: Work, e: Engine, t: seq<Token>)
    requires |t| == w.pos0 && Prefix(t) == w.prefixHash && Span(w.prefixHash, w.tokens) == w.resultHash
    requires e.runOk && (w.sid in ss || e.created) && (w.reset || Truthful(Lookup(ss, w.sid)))
    requires if w.reset then t == [] && e.reset == Cleared
             else Lookup(ss, w.sid).timeline == t && (Lookup(ss, w.sid).ready || t == [])
    ensures WorkStep(ss, w, e).1 == Done(w.resultHash)
    ensures WorkStep(ss, w, e).0 == ss[w.sid := Session(t + w.tokens, true, w.resultHash, true)]
    ensures w.resultHash == Prefix(t + w.tokens)
  {
    hide Span, Prefix;
    EmptyPrefix(t);
    DoneExactly(ss, w, e);
    ResultIsPrefix(t, w.tokens);
    assert [] + w.tokens == w.tokens;
  }

  lemma ResultIsPrefix(t: seq<Token>, tokens: seq<Token>)
    ensures Prefix(t + tokens) == Span(Prefix(t), tokens)
  {
    SpanConcat(INIT, t, tokens);
  }

  /** A refusal before the engine is asked leaves the session's timeline alone, and other
      sessions are left alone by every frame. */
  lemma RefusalTouchesNothing(ss: Sessions, w: Work, e: Engine)
    ensures forall sid <- ss :: sid != w.sid ==> sid in WorkStep(ss, w, e).0 && WorkStep(ss, w, e).0[sid] == ss[sid]
    ensures WorkStep(ss, w, e).1 in {Refused(BadSpanHash), Refused(NoSession)} ==> WorkStep(ss, w, e).0 == ss
    ensures WorkStep(ss, w, e).1 == Refused(PrefixMismatch) && !w.reset ==>
      var before, after := Lookup(ss, w.sid), Lookup(WorkStep(ss, w, e).0, w.sid);
      (after.timeline, after.ready) == (before.timeline, before.ready)
    ensures WorkStep(ss, w, e).1 == Refused(PrefixMismatch) ==>
      w.prefixHash != if w.reset then INIT
                      else if Lookup(ss, w.sid).valid then Lookup(ss, w.sid).hash else Prefix(Lookup(ss, w.sid).timeline)
  {
    hide Span, Prefix;
  }

  /** Exactly when a snapshot load succeeds, and what it leaves. */
  lemma LoadDoneExactly(ss: Sessions, sid: nat, tokens: seq<Token>, tokenHash: Hash, matchesWorker: bool, e: Engine)
    ensures var r := LoadStep(ss, sid, tokens, tokenHash, matchesWorker, e);
      && (r.1.Done? <==> Prefix(tokens) == tokenHash && matchesWorker && (sid in ss || e.created) && e.runOk)
      && (r.1.Done? ==> r == (ss[sid := Session(tokens, true, Prefix(tokens), true)], Done(tokenHash)))
      && (r.1 == Refused(LoadFailed) ==> sid in r.0 && !r.0[sid].valid)
  {
    hide Prefix;
  }

  /** A worker session that holds exactly the tokens `t`. */
  ghost predicate Replica(ss: Sessions, sid: nat, t: seq<Token>) {
    sid in ss && ss[sid].timeline == t
  }

  predicate Touches(ev: Event, sid: nat) {
    match ev
    case WorkFrame(w, _) => w.sid == sid
    case SnapshotLoad(s, _, _, _, _) => s == sid
    case ClearSessions => true
  }

  /** No step refuses `sid`: it sees only further WORK, all of it evaluated. */
  ghost predicate ErrorFree(ss: Sessions, evs: seq<Event>, sid: nat)
    decreases |evs|
  {
    evs != [] ==> Continues(ss, evs[0], sid) && ErrorFree(Step(ss, evs[0]).0, evs[1..], sid)
  }

  ghost predicate Continues(ss: Sessions, ev: Event, sid: nat) {
    Touches(ev, sid) ==> ev.WorkFrame? && !ev.work.reset && Step(ss, ev).1.Done?
  }

  function FedBy(ev: Event, sid: nat): seq<Token> {
    if ev.WorkFrame? && ev.work.sid == sid then ev.work.tokens else []
  }

  function Fed(evs: seq<Event>, sid: nat): seq<Token> {
    if evs == [] then [] else FedBy(evs[0], sid) + Fed(evs[1..], sid)
  }

  lemma StepReplicates(ss: Sessions, ev: Event, sid: nat, t: seq<Token>)
    requires Replica(ss, sid, t) && Continues(ss, ev, sid)
    ensures Replica(Step(ss, ev).0, sid, t + FedBy(ev, sid))
  {
    assert t + [] == t;
  }

  /** On error-free runs the hash chain carries the tokens themselves: whatever other
      sessions do in between, the replica ends as its start plus everything fed to it. */
  lemma {:induction false} ErrorFreeRunReplicates(ss: Sessions, evs: seq<Event>, sid: nat, t: seq<Token>)
    requires Replica(ss, sid, t) && ErrorFree(ss, evs, sid)
    ensures Replica(Run(ss, evs), sid, t + Fed(evs, sid))
    decreases |evs|
  {
    hide Step;
    if evs == [] {
      assert t + [] == t;
    } else {
      StepReplicates(ss, evs[0], sid, t);
      ErrorFreeRunReplicates(Step(ss, evs[0]).0, evs[1..], sid, t + FedBy(evs[0], sid));
      assert t + FedBy(evs[0], sid) + Fed(evs[1..], sid) == t + Fed(evs, sid);
    }
  }

  /** A reset WORK that is evaluated starts a replica from nothing. */
  lemma ResetStartsReplica(ss: Sessions, w: Work, e: Engine)
    requires w.reset && WorkStep(ss, w, e).1.Done?
    ensures Replica(WorkStep(ss, w, e).0, w.sid, w.tokens)
  {
    assert [] + w.tokens == w.tokens;
  }
}
