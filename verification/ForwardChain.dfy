/** A chain of workers forwarding WORK downstream and relaying RESULTs upstream. Node 0
    is the coordinator, nodes 1..n the hops; hop n answers, every other node keeps a FIFO
    of requests it forwarded and matches each RESULT against its head. A hop may answer a
    request itself with an error, which then overtakes what it still has pending. Sockets
    and job queues are FIFO channels. */
module ForwardChain {
  import opened Options

  /** A RESULT on its way up: the request it answers and one telemetry record per hop
      that has handled it; `error` if some hop answered it with an error. */
  datatype Result = Result(id: nat, trail: seq<nat>, error: bool)

  /** `work[i]`: frames sent to node i and not yet taken; `staged[i]`: registered as
      pending at node i, frame not yet written; `pending[i]`: node i's FIFO;
      `results[i]`: RESULTs node i sent up and its parent has not read (for node 0: the
      results delivered); `taken` and `returned` record each node's history; `stopped[i]`:
      node i saw a RESULT it did not expect and reads no more. */
  datatype State = State(
    work: seq<seq<nat>>, staged: seq<Option<nat>>, pending: seq<seq<nat>>, results: seq<seq<Result>>,
    taken: seq<seq<nat>>, returned: seq<seq<nat>>, stopped: seq<bool>)

  datatype Action = Submit(id: nat) | Take(node: nat) | Send(node: nat) | Reply | Relay(node: nat) | Fail(node: nat)

  function Ids(rs: seq<Result>): (ids: seq<nat>)
    ensures |ids| == |rs|
    ensures forall i :: 0 <= i < |ids| ==> ids[i] == rs[i].id
  {
    seq(|rs|, i requires 0 <= i < |rs| => rs[i].id)
  }

  function StagedIds(o: Option<nat>): seq<nat> { if o.Some? then [o.value] else [] }

  /** The telemetry of a result that hops n, n-1, .., i have handled, last hop first. */
  function Trail(n: nat, i: nat): seq<nat>
    decreases n - i
  {
    if i > n then [] else Trail(n, i + 1) + (if i == 0 then [] else [i])
  }

  ghost predicate Shape(n: nat, s: State) {
    && n >= 1
    && |s.work| == |s.staged| == |s.pending| == |s.results| == |s.taken| == |s.returned| == |s.stopped| == n + 1
  }

  ghost predicate Initial(n: nat, s: State) {
    && Shape(n, s)
    && forall i :: 0 <= i <= n ==>
         s.work[i] == [] && s.staged[i] == None && s.pending[i] == [] && s.results[i] == []
         && s.taken[i] == [] && s.returned[i] == [] && !s.stopped[i]
  }

  /** `depth` bounds each hop's FIFO; the coordinator has its own flow window. */
  ghost predicate Enabled(n: nat, depth: nat, s: State, a: Action)
    requires Shape(n, s)
  {
    match a
    case Submit(id) => s.staged[0] == None
    case Take(i) => 0 < i < n && s.work[i] != [] && s.staged[i] == None && |s.pending[i]| < depth
    case Send(i) => i < n && s.staged[i].Some?
    case Reply => s.work[n] != []
    case Relay(i) => i < n && s.results[i + 1] != [] && !s.stopped[i]
    case Fail(i) => 0 < i <= n && s.work[i] != []
  }

  /** Registering request `id` in node i's FIFO before its frame is written. */
  function Register(s: State, i: nat, id: nat): State
    requires i < |s.staged| == |s.pending| == |s.taken|
  {
    s.(staged := s.staged[i := Some(id)], pending := s.pending[i := s.pending[i] + [id]],
       taken := s.taken[i := s.taken[i] + [id]])
  }

  function Return(s: State, i: nat, r: Result): State
    requires i < |s.results| == |s.returned|
  {
    s.(results := s.results[i := s.results[i] + [r]], returned := s.returned[i := s.returned[i] + [r.id]])
  }

  function Apply(n: nat, s: State, a: Action): State
    requires |s.work| == |s.staged| == |s.pending| == |s.results| == |s.taken| == |s.returned| == |s.stopped| == n + 1
    requires a.Take? ==> a.node < n && s.work[a.node] != []
    requires a.Send? ==> a.node < n && s.staged[a.node].Some?
    requires a.Reply? ==> s.work[n] != []
    requires a.Relay? ==> a.node < n && s.results[a.node + 1] != []
    requires a.Fail? ==> a.node <= n && s.work[a.node] != []
  {
    match a
    case Submit(id) => Register(s, 0, id)
    case Take(i) => Register(s.(work := s.work[i := s.work[i][1..]]), i, s.work[i][0])
    case Send(i) =>
      s.(work := s.work[i + 1 := s.work[i + 1] + [s.staged[i].value]], staged := s.staged[i := None])
    case Reply =>
      var id := s.work[n][0];
      var s' := s.(work := s.work[n := s.work[n][1..]], taken := s.taken[n := s.taken[n] + [id]]);
      Return(s', n, Result(id, [n], false))
    case Relay(i) =>
      var r := s.results[i + 1][0];
      var s' := s.(results := s.results[i + 1 := s.results[i + 1][1..]]);
      if s.pending[i] == [] || s.pending[i][0] != r.id then Stop(s', i)
      else
        Return(s'.(pending := s'.pending[i := s.pending[i][1..]]), i,
               r.(trail := r.trail + (if i == 0 then [] else [i])))
    case Fail(i) =>
      var id := s.work[i][0];
      var s' := s.(work := s.work[i := s.work[i][1..]], taken := s.taken[i := s.taken[i] + [id]]);
      Return(s', i, Result(id, [], true))
  }

  /** After a RESULT that is not the expected one: a hop gives up its oldest request with
      an error, and no node reads on. */
  function Stop(s: State, i: nat): State
    requires i < |s.stopped| == |s.pending| == |s.results| == |s.returned|
  {
    var s' := s.(stopped := s.stopped[i := true]);
    if i == 0 || s.pending[i] == [] then s'
    else Return(s'.(pending := s.pending[i := s.pending[i][1..]]), i, Result(s.pending[i][0], [], true))
  }

  /** Everything node i has pending is somewhere below it, in order: answered and on the
      way up, pending one hop down, waiting in that hop's queue, or about to be sent. */
  ghost predicate Link(s: State, i: nat)
    requires i + 1 < |s.pending| == |s.results| == |s.work| == |s.staged|
  {
    s.pending[i] == Ids(s.results[i + 1]) + s.pending[i + 1] + s.work[i + 1] + StagedIds(s.staged[i])
  }

  ghost predicate NodeOk(n: nat, depth: nat, s: State, i: nat)
    requires Shape(n, s) && i <= n
  {
    && s.taken[i] == s.returned[i] + s.pending[i]
    && (forall r <- s.results[i] :: r.trail == Trail(n, i))
    && (0 < i ==> |s.pending[i]| <= depth)
  }

  ghost predicate Inv(n: nat, depth: nat, s: State) {
    && Shape(n, s) && depth >= 1 && (forall i: nat :: i <= n ==> !s.stopped[i]) && s.pending[n] == [] && s.staged[n] == None
    && s.returned[0] == Ids(s.results[0])
    && (forall i: nat :: i < n ==> Link(s, i))
    && (forall i: nat :: i <= n ==> NodeOk(n, depth, s, i))
  }

  lemma ApplyIsCallable(n: nat, depth: nat, s: State, a: Action)
    requires Shape(n, s) && Enabled(n, depth, s, a)
    ensures a.Take? ==> a.node < n && s.work[a.node] != []
    ensures a.Send? ==> a.node < n && s.staged[a.node].Some?
    ensures a.Reply? ==> s.work[n] != []
    ensures a.Relay? ==> a.node < n && s.results[a.node + 1] != []
    ensures a.Fail? ==> a.node <= n && s.work[a.node] != []
  {
  }

  function Next(n: nat, depth: nat, s: State, a: Action): State
    requires Shape(n, s) && Enabled(n, depth, s, a)
  {
    ApplyIsCallable(n, depth, s, a);
    Apply(n, s, a)
  }

  lemma SubmitKeepsInv(n: nat, depth: nat, s: State, id: nat)
    requires Inv(n, depth, s) && Enabled(n, depth, s, Submit(id))
    ensures Inv(n, depth, Next(n, depth, s, Submit(id)))
  {
    var s' := Next(n, depth, s, Submit(id));
    forall i: nat | i < n
      ensures Link(s', i)
    {
      assert Link(s, i);
    }
    forall i: nat | i <= n
      ensures NodeOk(n, depth, s', i)
    {
      assert NodeOk(n, depth, s, i);
    }
  }

  lemma TakeKeepsInv(n: nat, depth: nat, s: State, k: nat)
    requires Inv(n, depth, s) && Enabled(n, depth, s, Take(k))
    ensures Inv(n, depth, Next(n, depth, s, Take(k)))
  {
    var s' := Next(n, depth, s, Take(k));
    forall i: nat | i < n
      ensures Link(s', i)
    {
      assert Link(s, i);
      assert s.work[k] == [s.work[k][0]] + s.work[k][1..];
    }
    forall i: nat | i <= n
      ensures NodeOk(n, depth, s', i)
    {
      assert NodeOk(n, depth, s, i);
    }
  }

  lemma SendKeepsInv(n: nat, depth: nat, s: State, k: nat)
    requires Inv(n, depth, s) && Enabled(n, depth, s, Send(k))
    ensures Inv(n, depth, Next(n, depth, s, Send(k)))
  {
    var s' := Next(n, depth, s, Send(k));
    forall i: nat | i < n
      ensures Link(s', i)
    {
      assert Link(s, i);
    }
    forall i: nat | i <= n
      ensures NodeOk(n, depth, s', i)
    {
      assert NodeOk(n, depth, s, i);
    }
  }

  lemma ReplyKeepsInv(n: nat, depth: nat, s: State)
    requires Inv(n, depth, s) && Enabled(n, depth, s, Reply)
    ensures Inv(n, depth, Next(n, depth, s, Reply))
  {
    var s' := Next(n, depth, s, Reply);
    var id := s.work[n][0];
    assert s.work[n] == [id] + s.work[n][1..];
    assert Ids(s.results[n] + [Result(id, [n], false)]) == Ids(s.results[n]) + [id];
    forall i: nat | i < n
      ensures Link(s', i)
    {
      assert Link(s, i);
    }
    forall i: nat | i <= n
      ensures NodeOk(n, depth, s', i)
    {
      assert NodeOk(n, depth, s, i);
      assert Trail(n, n) == Trail(n, n + 1) + [n] == [n];
    }
  }

  /** The heart of the protocol: the oldest RESULT from below is always the answer to
      the oldest pending request. */
  lemma HeadsMatch(n: nat, depth: nat, s: State, k: nat)
    requires Inv(n, depth, s) && Enabled(n, depth, s, Relay(k))
    ensures s.pending[k] != [] && s.pending[k][0] == s.results[k + 1][0].id
    ensures s.pending[k][1..] == Ids(s.results[k + 1][1..]) + s.pending[k + 1] + s.work[k + 1] + StagedIds(s.staged[k])
  {
    assert Link(s, k);
    var rs := s.results[k + 1];
    assert Ids(rs) == [rs[0].id] + Ids(rs[1..]);
  }

  /** The state after a relay whose heads match. */
  lemma RelayIs(n: nat, depth: nat, s: State, k: nat)
    requires Inv(n, depth, s) && Enabled(n, depth, s, Relay(k))
    ensures var r := s.results[k + 1][0];
      var up := r.(trail := r.trail + (if k == 0 then [] else [k]));
      var s' := Next(n, depth, s, Relay(k));
      && Shape(n, s') && (s'.work, s'.staged, s'.taken, s'.stopped) == (s.work, s.staged, s.taken, s.stopped)
      && s'.pending == s.pending[k := s.pending[k][1..]]
      && s'.results == s.results[k + 1 := s.results[k + 1][1..]][k := s.results[k] + [up]]
      && s'.returned == s.returned[k := s.returned[k] + [r.id]]
  {
    hide NodeOk, Link, Trail, Ids, Stop;
    HeadsMatch(n, depth, s, k);
  }

  lemma RelayKeepsLink(n: nat, depth: nat, s: State, k: nat, i: nat)
    requires Inv(n, depth, s) && Enabled(n, depth, s, Relay(k)) && i < n
    ensures Link(Next(n, depth, s, Relay(k)), i)
  {
    HeadsMatch(n, depth, s, k);
    RelayIs(n, depth, s, k);
    assert Link(s, i);
    hide NodeOk, Trail, Stop, Next, Apply, Inv, Enabled, Ids;
    if i + 1 == k {
      var r := s.results[k + 1][0];
      IdsMore(s.results[k], r.(trail := r.trail + (if k == 0 then [] else [k])));
      assert s.pending[k] == [r.id] + s.pending[k][1..];
    }
  }

  lemma IdsMore(rs: seq<Result>, r: Result)
    ensures Ids(rs + [r]) == Ids(rs) + [r.id]
  {
  }

  lemma RelayKeepsNode(n: nat, depth: nat, s: State, k: nat, i: nat)
    requires Inv(n, depth, s) && Enabled(n, depth, s, Relay(k)) && i <= n
    ensures NodeOk(n, depth, Next(n, depth, s, Relay(k)), i)
  {
    hide Link, Stop;
    HeadsMatch(n, depth, s, k);
    assert NodeOk(n, depth, s, i) && NodeOk(n, depth, s, k + 1);
    assert s.results[k + 1][0].trail == Trail(n, k + 1);
    assert s.pending[k] == [s.pending[k][0]] + s.pending[k][1..];
  }

  lemma RelayKeepsInv(n: nat, depth: nat, s: State, k: nat)
    requires Inv(n, depth, s) && Enabled(n, depth, s, Relay(k))
    ensures Inv(n, depth, Next(n, depth, s, Relay(k)))
  {
    hide Link, NodeOk;
    HeadsMatch(n, depth, s, k);
    var s' := Next(n, depth, s, Relay(k));
    if k == 0 { assert s'.returned[0] == Ids(s'.results[0]); }
    forall i: nat | i < n
      ensures Link(s', i)
    {
      RelayKeepsLink(n, depth, s, k, i);
    }
    forall i: nat | i <= n
      ensures NodeOk(n, depth, s', i)
    {
      RelayKeepsNode(n, depth, s, k, i);
    }
  }

  lemma StepKeepsInv(n: nat, depth: nat, s: State, a: Action)
    requires Inv(n, depth, s) && Enabled(n, depth, s, a) && !a.Fail?
    ensures Inv(n, depth, Next(n, depth, s, a))
  {
    match a
    case Submit(id) => SubmitKeepsInv(n, depth, s, id);
    case Take(k) => TakeKeepsInv(n, depth, s, k);
    case Send(k) => SendKeepsInv(n, depth, s, k);
    case Reply => ReplyKeepsInv(n, depth, s);
    case Relay(k) => RelayKeepsInv(n, depth, s, k);
  }

  ghost predicate IsRun(n: nat, depth: nat, states: seq<State>, actions: seq<Action>) {
    && |states| == |actions| + 1 && depth >= 1 && Initial(n, states[0])
    && forall i :: 0 <= i < |actions| ==>
         && Shape(n, states[i]) && Enabled(n, depth, states[i], actions[i])
         && states[i + 1] == Next(n, depth, states[i], actions[i])
  }

  lemma InitialInv(n: nat, depth: nat, s: State)
    requires Initial(n, s) && depth >= 1
    ensures Inv(n, depth, s)
  {
    forall i: nat | i < n
      ensures Link(s, i)
    {
      assert s.results[i + 1] == [] && s.pending[i + 1] == [];
    }
  }

  /** No hop answers a request itself. */
  ghost predicate ErrorFree(actions: seq<Action>) { forall a <- actions :: !a.Fail? }

  lemma {:induction false} RunKeepsInv(n: nat, depth: nat, states: seq<State>, actions: seq<Action>, i: nat)
    requires IsRun(n, depth, states, actions) && ErrorFree(actions) && i < |states|
    ensures Inv(n, depth, states[i])
  {
    hide Inv, Enabled, Next, Initial;
    if i == 0 {
      InitialInv(n, depth, states[0]);
    } else {
      RunKeepsInv(n, depth, states, actions, i - 1);
      assert states[i - 1 + 1] == Next(n, depth, states[i - 1], actions[i - 1]);
      StepKeepsInv(n, depth, states[i - 1], actions[i - 1]);
    }
  }

  /** In every reachable state: no relay has seen a foreign id, every node has returned
      exactly one RESULT per WORK in arrival order except for what it still has pending,
      and every FIFO is within its depth. */
  lemma OneResultPerWork(n: nat, depth: nat, states: seq<State>, actions: seq<Action>, i: nat, node: nat)
    requires IsRun(n, depth, states, actions) && ErrorFree(actions) && i < |states| && node <= n
    ensures var s := states[i];
      && Shape(n, s) && !s.stopped[node]
      && s.taken[node] == s.returned[node] + s.pending[node]
      && (0 < node ==> |s.pending[node]| <= depth)
  {
    RunKeepsInv(n, depth, states, actions, i);
    assert NodeOk(n, depth, states[i], node);
  }

  lemma {:induction false} TrailCounts(n: nat, i: nat)
    requires 0 < i <= n + 1
    ensures |Trail(n, i)| == n + 1 - i
    ensures forall k :: 0 <= k < |Trail(n, i)| ==> Trail(n, i)[k] == n - k
    decreases n - i
  {
    if i <= n { TrailCounts(n, i + 1); }
  }

  /** What the coordinator receives: results in submission order, each with exactly one
      telemetry record per hop, the last hop's first. */
  lemma DeliveredInOrder(n: nat, depth: nat, states: seq<State>, actions: seq<Action>, i: nat)
    requires IsRun(n, depth, states, actions) && ErrorFree(actions) && i < |states|
    ensures var s := states[i];
      && Shape(n, s)
      && Ids(s.results[0]) <= s.taken[0]
      && (forall r <- s.results[0] :: |r.trail| == n && forall k :: 0 <= k < n ==> r.trail[k] == n - k)
  {
    RunKeepsInv(n, depth, states, actions, i);
    assert NodeOk(n, depth, states[i], 0);
    TrailCounts(n, 1);
    assert Trail(n, 0) == Trail(n, 1) + [] == Trail(n, 1);
  }

  /** Below a node with something pending, some step can always be taken. */
  lemma {:induction false} FindMove(n: nat, depth: nat, s: State, i: nat) returns (a: Action)
    requires Inv(n, depth, s) && i <= n && s.pending[i] != []
    ensures !a.Submit? && !a.Fail? && Enabled(n, depth, s, a)
    decreases n - i
  {
    assert i < n && Link(s, i);
    if s.staged[i].Some? {
      a := Send(i);
    } else if s.results[i + 1] != [] {
      a := Relay(i);
    } else if s.pending[i + 1] != [] {
      a := FindMove(n, depth, s, i + 1);
    } else if i + 1 == n {
      a := Reply;
    } else {
      assert Link(s, i + 1);
      a := Take(i + 1);
    }
  }

  /** No run deadlocks with work outstanding, whatever the FIFO depth. */
  lemma OutstandingWorkMoves(n: nat, depth: nat, states: seq<State>, actions: seq<Action>, i: nat)
    requires IsRun(n, depth, states, actions) && ErrorFree(actions) && i < |states|
    requires Shape(n, states[i]) && states[i].returned[0] != states[i].taken[0]
    ensures exists a: Action :: !a.Submit? && !a.Fail? && Enabled(n, depth, states[i], a)
  {
    RunKeepsInv(n, depth, states, actions, i);
    var s := states[i];
    assert NodeOk(n, depth, s, 0);
    assert s.returned[0] + [] == s.returned[0];
    var a := FindMove(n, depth, s, 0);
  }

  // ---- Runs in which hops report errors ----

  /** What every run keeps, errors or not: a result without an error has passed every hop,
      each node answers each request it took exactly once, and the coordinator, which
      takes a RESULT only for its oldest request, is answered in submission order. */
  ghost predicate AnyInv(n: nat, s: State) {
    && Shape(n, s)
    && s.taken[0] == s.returned[0] + s.pending[0] && s.returned[0] == Ids(s.results[0])
    && forall i: nat :: i <= n ==> AnsweredOnce(n, s, i)
  }

  ghost predicate AnsweredOnce(n: nat, s: State, i: nat)
    requires Shape(n, s) && i <= n
  {
    Answered(n, i, s.taken[i], s.returned[i], s.pending[i], s.results[i])
  }

  ghost predicate Answered(n: nat, i: nat, taken: seq<nat>, returned: seq<nat>, pending: seq<nat>, results: seq<Result>) {
    && multiset(taken) == multiset(returned) + multiset(pending)
    && (forall r <- results :: Full(n, i, r))
  }

  ghost predicate Full(n: nat, i: nat, r: Result) { !r.error ==> r.trail == Trail(n, i) }

  /** The four ways a node's history moves: a request is taken, answered at once, answered
      from the queue, or its RESULT is read by the parent. */
  lemma Moves(n: nat, i: nat, t: seq<nat>, u: seq<nat>, p: seq<nat>, rs: seq<Result>, id: nat, r: Result)
    requires Answered(n, i, t, u, p, rs)
    ensures Answered(n, i, t + [id], u, p + [id], rs)
    ensures Full(n, i, r) ==> Answered(n, i, t + [id], u + [id], p, rs + [r])
    ensures Full(n, i, r) && p != [] ==> Answered(n, i, t, u + [p[0]], p[1..], rs + [r])
    ensures rs != [] ==> Answered(n, i, t, u, p, rs[1..]) && Full(n, i, rs[0])
  {
    hide Full;
    if p != [] { assert p == [p[0]] + p[1..]; }
  }

  lemma FullStep(n: nat, i: nat, r: Result)
    requires i < n && Full(n, i + 1, r)
    ensures Full(n, i, r.(trail := r.trail + (if i == 0 then [] else [i])))
  {
  }

  lemma FullReply(n: nat, id: nat)
    requires n >= 1
    ensures Full(n, n, Result(id, [n], false))
  {
    assert Trail(n, n) == Trail(n, n + 1) + [n] == [n];
  }

  lemma AnyStepKeeps(n: nat, depth: nat, s: State, a: Action, i: nat)
    requires AnyInv(n, s) && Enabled(n, depth, s, a) && i <= n
    ensures AnsweredOnce(n, Next(n, depth, s, a), i)
  {
    hide Answered, Trail, Ids;
    assert AnsweredOnce(n, s, i);
    match a
    case Relay(k) => AnyRelayKeeps(n, depth, s, k, i);
    case Reply =>
      FullReply(n, s.work[n][0]);
      hide Full;
      Moves(n, i, s.taken[i], s.returned[i], s.pending[i], s.results[i], s.work[n][0], Result(s.work[n][0], [n], false));
    case Submit(id) =>
      Moves(n, i, s.taken[i], s.returned[i], s.pending[i], s.results[i], id, Result(id, [], true));
    case Take(k) =>
      Moves(n, i, s.taken[i], s.returned[i], s.pending[i], s.results[i], s.work[k][0], Result(0, [], true));
    case Send(_) =>
    case Fail(k) =>
      Moves(n, i, s.taken[i], s.returned[i], s.pending[i], s.results[i], s.work[k][0], Result(s.work[k][0], [], true));
  }

  lemma AnyRelayKeeps(n: nat, depth: nat, s: State, k: nat, i: nat)
    requires AnyInv(n, s) && Enabled(n, depth, s, Relay(k)) && i <= n
    ensures AnsweredOnce(n, Next(n, depth, s, Relay(k)), i)
  {
    hide Answered, Trail, Ids;
    assert AnsweredOnce(n, s, i) && AnsweredOnce(n, s, k + 1);
    var r := s.results[k + 1][0];
    var up := r.(trail := r.trail + (if k == 0 then [] else [k]));
    var error := Result(if s.pending[k] == [] then 0 else s.pending[k][0], [], true);
    Moves(n, k + 1, s.taken[k + 1], s.returned[k + 1], s.pending[k + 1], s.results[k + 1], 0, r);
    FullStep(n, k, r);
    assert Full(n, i, error);
    hide Full;
    Moves(n, i, s.taken[i], s.returned[i], s.pending[i], s.results[i], 0, up);
    Moves(n, i, s.taken[i], s.returned[i], s.pending[i], s.results[i], 0, error);
  }

  lemma AnyStepKeepsOrder(n: nat, depth: nat, s: State, a: Action)
    requires AnyInv(n, s) && Enabled(n, depth, s, a)
    ensures var s' := Next(n, depth, s, a);
      Shape(n, s') && s'.taken[0] == s'.returned[0] + s'.pending[0] && s'.returned[0] == Ids(s'.results[0])
  {
    hide AnsweredOnce, Trail;
    if a.Relay? && a.node == 0 && s.pending[0] != [] {
      assert s.pending[0] == [s.pending[0][0]] + s.pending[0][1..];
    }
  }

  lemma {:induction false} AnyRunKeeps(n: nat, depth: nat, states: seq<State>, actions: seq<Action>, i: nat)
    requires IsRun(n, depth, states, actions) && i < |states|
    ensures AnyInv(n, states[i])
  {
    hide Enabled, Next, AnsweredOnce;
    if i == 0 {
      AnyInitial(n, states[0]);
    } else {
      AnyRunKeeps(n, depth, states, actions, i - 1);
      assert states[i - 1 + 1] == Next(n, depth, states[i - 1], actions[i - 1]);
      AnyStepKeepsOrder(n, depth, states[i - 1], actions[i - 1]);
      forall j: nat | j <= n ensures AnsweredOnce(n, states[i], j) {
        AnyStepKeeps(n, depth, states[i - 1], actions[i - 1], j);
      }
    }
  }

  lemma AnyInitial(n: nat, s: State)
    requires Initial(n, s)
    ensures AnyInv(n, s)
  {
  }

  /** So whatever errors are reported, what the coordinator accepts is a prefix of what it
      submitted, and an accepted result without an error carries every hop's record. */
  lemma AcceptedInOrder(n: nat, depth: nat, states: seq<State>, actions: seq<Action>, i: nat)
    requires IsRun(n, depth, states, actions) && i < |states|
    ensures var s := states[i];
      && Shape(n, s) && Ids(s.results[0]) <= s.taken[0]
      && (forall r <- s.results[0] :: !r.error ==> |r.trail| == n && forall k :: 0 <= k < n ==> r.trail[k] == n - k)
  {
    AnyRunKeeps(n, depth, states, actions, i);
    assert AnsweredOnce(n, states[i], 0);
    TrailCounts(n, 1);
    assert Trail(n, 0) == Trail(n, 1) + [] == Trail(n, 1);
  }

  /** One more step of a run. */
  lemma Extended(n: nat, depth: nat, states: seq<State>, actions: seq<Action>, a: Action)
    returns (states': seq<State>, actions': seq<Action>)
    requires IsRun(n, depth, states, actions) && Shape(n, states[|actions|]) && Enabled(n, depth, states[|actions|], a)
    ensures IsRun(n, depth, states', actions') && |states'| == |actions'| + 1 == |actions| + 2
    ensures states'[|actions'|] == Next(n, depth, states[|actions|], a)
  {
    hide Enabled, Next, Initial;
    states', actions' := states + [Next(n, depth, states[|actions|], a)], actions + [a];
  }

  /** Two hops; request 1 is submitted, and hop 1 has forwarded it. */
  lemma OneForwarded() returns (states: seq<State>, actions: seq<Action>)
    ensures IsRun(2, 2, states, actions)
    ensures var s := states[|actions|];
      && Shape(2, s) && s.work[1] == [] && s.staged[0] == s.staged[1] == None && !s.stopped[0]
      && s.pending[0] == s.pending[1] == s.taken[1] == [1] && s.returned[1] == [] && s.results[0] == s.results[1] == []
  {
    hide Trail, Ids, Stop, IsRun;
    var none: seq<seq<nat>> := [[], [], []];
    var s0 := State(none, [None, None, None], none, [[], [], []], none, none, [false, false, false]);
    states, actions := [s0], [];
    StartsRun(s0);
    states, actions := Extended(2, 2, states, actions, Submit(1));
    states, actions := Extended(2, 2, states, actions, Send(0));
    states, actions := Extended(2, 2, states, actions, Take(1));
    states, actions := Extended(2, 2, states, actions, Send(1));
  }

  lemma StartsRun(s: State)
    requires Initial(2, s)
    ensures IsRun(2, 2, [s], [])
  {
  }

  lemma RunSized(n: nat, depth: nat, states: seq<State>, actions: seq<Action>)
    requires IsRun(n, depth, states, actions)
    ensures |states| == |actions| + 1
  {
  }

  /** Errors do overtake: hop 1 answers request 2 itself while 1 is still pending. It then
      has returned 2 before 1, and the coordinator stops at the id it did not expect. */
  lemma ErrorsOvertake() returns (states: seq<State>, actions: seq<Action>)
    ensures IsRun(2, 2, states, actions)
    ensures var s := states[|actions|];
      Shape(2, s) && s.taken[1] == [1, 2] && s.returned[1] == [2] && s.pending[1] == [1] && s.stopped[0] && s.results[0] == []
  {
    hide Trail, Ids, IsRun;
    states, actions := OneForwarded();
    RunSized(2, 2, states, actions);
    states, actions := Extended(2, 2, states, actions, Submit(2));
    states, actions := Extended(2, 2, states, actions, Send(0));
    states, actions := Extended(2, 2, states, actions, Fail(1));
    states, actions := Extended(2, 2, states, actions, Relay(0));
  }
}
