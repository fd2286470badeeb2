/** The coordinator's worker registry and the session's cached route plan. Client threads
    register and remove workers, the session thread builds, reuses and forgets plans; a
    generation counter says whether the registry has changed since a plan was built. */
module Registry {
  import opened Options
  import opened RouteSearch
  import opened RouteBlob
  import opened RoutePlan

  /** Two entries a registry must not hold at once: same host, model, range and output. */
  predicate Twins(a: Worker, b: Worker) {
    && a.host == b.host && a.model == b.model
    && a.start == b.start && a.end == b.end && a.hasOutput == b.hasOutput
  }

  /** The match the plan forgetter uses between a hop and a registered worker. */
  predicate Serves(w: Worker, e: Entry) {
    && e.port == w.port && e.host == w.host
    && e.start == w.start && e.end == w.end && (e.flags % 2 == 1) == w.hasOutput
  }

  function DropTwins(ws: seq<Worker>, w: Worker): seq<Worker> {
    if ws == [] then []
    else (if Twins(ws[0], w) then [] else [ws[0]]) + DropTwins(ws[1..], w)
  }

  /** Without the first worker that matches, if any. */
  function RemoveFirst(ws: seq<Worker>, matches: Worker -> bool): seq<Worker> {
    if ws == [] then []
    else if matches(ws[0]) then ws[1..]
    else [ws[0]] + RemoveFirst(ws[1..], matches)
  }

  function ServingHop(e: Entry): Worker -> bool { (w: Worker) => Serves(w, e) }

  function ByFd(fd: int): Worker -> bool { (w: Worker) => w.fd == fd }

  function ForgetHops(ws: seq<Worker>, es: seq<Entry>): seq<Worker> {
    if es == [] then ws else RemoveFirst(ForgetHops(ws, es[..|es| - 1]), ServingHop(es[|es| - 1]))
  }

  /** The order of the route sort: first layer, then output workers first, then the
      longest range first. */
  predicate Before(a: Worker, b: Worker) {
    || a.start < b.start
    || (a.start == b.start && a.hasOutput && !b.hasOutput)
    || (a.start == b.start && a.hasOutput == b.hasOutput && a.end >= b.end)
  }

  ghost predicate Ordered(ws: seq<Worker>) {
    forall i, j :: 0 <= i < j < |ws| ==> Before(ws[i], ws[j])
  }

  function Insert(w: Worker, ws: seq<Worker>): (r: seq<Worker>)
    requires Ordered(ws)
    ensures Ordered(r) && multiset(r) == multiset(ws) + multiset{w} && |r| == |ws| + 1
  {
    if ws == [] || Before(w, ws[0]) then [w] + ws
    else
      assert ws == [ws[0]] + ws[1..];
      var r := Insert(w, ws[1..]);
      InsertedAfter(ws[0], w, ws[1..], r);
      [ws[0]] + r
  }

  lemma InsertedAfter(h: Worker, w: Worker, ws: seq<Worker>, r: seq<Worker>)
    requires Ordered([h] + ws) && !Before(w, h) && Ordered(r) && multiset(r) == multiset(ws) + multiset{w}
    ensures Ordered([h] + r)
  {
    forall x | x in r
      ensures Before(h, x)
    {
      assert x in multiset(r);
      if x in multiset(ws) {
        var i :| 0 <= i < |ws| && ws[i] == x;
        assert Before(([h] + ws)[0], ([h] + ws)[i + 1]);
      }
    }
  }

  /** The sorted copy that the search runs on. */
  function SortWorkers(ws: seq<Worker>): (r: seq<Worker>)
    ensures Ordered(r) && multiset(r) == multiset(ws) && |r| == |ws|
  {
    if ws == [] then []
    else
      assert ws == [ws[0]] + ws[1..];
      Insert(ws[0], SortWorkers(ws[1..]))
  }

  /** Earlier first layers come first; at the same layer, workers with the output head;
      and of two alike, the longer range. */
  lemma SortedInFields(ws: seq<Worker>, i: nat, j: nat)
    requires i < j < |ws|
    ensures var a, b := SortWorkers(ws)[i], SortWorkers(ws)[j];
      && a.start <= b.start
      && (a.start == b.start && b.hasOutput ==> a.hasOutput)
      && (a.start == b.start && a.hasOutput == b.hasOutput ==> b.end <= a.end)
  {
    assert Before(SortWorkers(ws)[i], SortWorkers(ws)[j]);
  }

  datatype State = State(workers: seq<Worker>, generation: nat, down: bool,
                         plan: seq<Entry>, planReady: bool, planGen: nat)

  const EMPTY: State := State([], 0, false, [], false, 0)

  /** What building a plan from a registry can yield: a route served by registered
      workers throughout, or nothing when there is none to be had. */
  ghost predicate Buildable(c: Local, ws: seq<Worker>, r: Option<seq<Entry>>) {
    && c.nLayers > 0
    && (r.Some? ==>
          && PlanOk(c, r.value) && AllServed(r.value, ws) && c.start == 0
          && (r.value == [] <==> c.end + 1 == c.nLayers && (c.hasOutput || c.canOutputHead))
          && (r.value != [] ==> exists p :: Routed(c, SortWorkers(ws), p) && r.value == EntriesOf(p)))
    && (r.None? ==>
          || c.start != 0
          || NoRoute(SortWorkers(ws), c.nLayers - 1, c.canOutputHead, c.end + 1)
          || (exists p :: Oversized(c, SortWorkers(ws), p)))
  }

  ghost predicate AllServed(es: seq<Entry>, ws: seq<Worker>) {
    forall i :: 0 <= i < |es| ==> ServedBy(es[i], ws)
  }

  datatype Event =
    | Register(w: Worker)
    | Remove(fd: int)
    | Shutdown
    | Forget
    | Build(result: Option<seq<Entry>>)
    | Ensure(result: Option<seq<Entry>>)
    | Rebuilt(ok: bool)

  predicate Fresh(s: State) { s.planReady && s.planGen == s.generation }

  function Registering(s: State, w: Worker): State {
    if s.down then s
    else s.(workers := [w] + DropTwins(s.workers, w), generation := s.generation + 1)
  }

  function Removing(s: State, fd: int): State {
    var left := RemoveFirst(s.workers, ByFd(fd));
    s.(workers := left, generation := if |left| < |s.workers| then s.generation + 1 else s.generation)
  }

  /** Forgetting the workers of a failed route, and freeing its plan. */
  function Forgetting(s: State): State {
    var left := ForgetHops(s.workers, s.plan);
    s.(workers := left, plan := [],
       generation := if |left| < |s.workers| then s.generation + 1 else s.generation)
  }

  /** A plan build: its plan and the generation it saw, or no plan. */
  function Building(s: State, r: Option<seq<Entry>>): State {
    if r.Some? then s.(plan := r.value, planGen := s.generation)
    else s.(plan := [], planReady := false, planGen := 0)
  }

  function Ensuring(s: State, r: Option<seq<Entry>>): State {
    if Fresh(s) then s
    else Building(s, r).(planReady := r.Some?)
  }

  /** The end of a rebuild: a failed one drops the plan. */
  function Rebuilding(s: State, ok: bool): State {
    if ok then s.(planReady := true) else s.(planReady := false, planGen := 0)
  }

  function Next(s: State, ev: Event): State {
    match ev
    case Register(w) => Registering(s, w)
    case Remove(fd) => Removing(s, fd)
    case Shutdown => s.(down := true)
    case Forget => Forgetting(s)
    case Build(r) => Building(s, r)
    case Ensure(r) => Ensuring(s, r)
    case Rebuilt(ok) => Rebuilding(s, ok)
  }

  /** A HELLO has been checked before its worker is registered; builds yield what they
      can; the rebuild steps run only after the session has ensured a route. */
  ghost predicate Enabled(c: Local, s: State, ev: Event) {
    match ev
    case Register(w) => HelloOk(c, w) && HostOk(w.host)
    case Build(r) => s.planReady && Buildable(c, s.workers, r)
    case Ensure(r) => Fresh(s) || Buildable(c, s.workers, r)
    case Rebuilt(_) => s.planReady
    case Forget => s.planReady
    case _ => true
  }

  /** A registration replaces the entries of the same host, model, range and output flag,
      whatever their port and context, and no others. */
  lemma {:induction false} RegisterInFields(s: State, w: Worker, x: Worker)
    requires !s.down
    ensures var workers := Registering(s, w).workers;
      && workers[0] == w && |workers| <= |s.workers| + 1
      && (x in workers <==>
           || x == w
           || (x in s.workers && (x.host != w.host || x.model != w.model || x.start != w.start || x.end != w.end || x.hasOutput != w.hasOutput)))
  {
    DroppedTwins(s.workers, w, x);
  }

  lemma {:induction false} DroppedTwins(ws: seq<Worker>, w: Worker, x: Worker)
    ensures x in DropTwins(ws, w) <==> x in ws && !Twins(x, w)
    ensures |DropTwins(ws, w)| <= |ws|
  {
    hide Twins;
    if ws != [] {
      DroppedTwins(ws[1..], w, x);
      assert x in ws <==> x == ws[0] || x in ws[1..];
    }
  }

  /** A closed connection takes out the first entry that came by it, if there is one, and
      only then is the registry a new one. */
  lemma {:induction false} RemoveInFields(s: State, fd: int)
    ensures var s' := Removing(s, fd);
      || (s' == s && forall w <- s.workers :: w.fd != fd)
      || (s' == s.(workers := s'.workers, generation := s.generation + 1) && exists i ::
            && 0 <= i < |s.workers| && s.workers[i].fd == fd && (forall j :: 0 <= j < i ==> s.workers[j].fd != fd)
            && s'.workers == s.workers[..i] + s.workers[i + 1..])
  {
    var i := FirstByFd(s.workers, fd);
    if i == |s.workers| { assert Removing(s, fd) == s; }
  }

  lemma {:induction false} FirstByFd(ws: seq<Worker>, fd: int) returns (i: nat)
    ensures i <= |ws| && (forall j :: 0 <= j < i ==> ws[j].fd != fd) && (i < |ws| ==> ws[i].fd == fd)
    ensures RemoveFirst(ws, ByFd(fd)) == if i < |ws| then ws[..i] + ws[i + 1..] else ws
  {
    if ws == [] || ws[0].fd == fd {
      i := 0;
      if ws != [] { assert ws[..0] + ws[1..] == ws[1..]; }
    } else {
      var k := FirstByFd(ws[1..], fd);
      i := k + 1;
      forall j | 0 < j < i ensures ws[j].fd != fd { assert ws[1..][j - 1].fd != fd; }
      assert RemoveFirst(ws, ByFd(fd)) == [ws[0]] + RemoveFirst(ws[1..], ByFd(fd));
      hide RemoveFirst;
      WithoutLater(ws, k);
    }
  }

  lemma WithoutLater<T>(s: seq<T>, k: nat)
    requires k < |s|
    ensures [s[0]] + s[1..] == s
    ensures k < |s| - 1 ==> [s[0]] + (s[1..][..k] + s[1..][k + 1..]) == s[..k + 1] + s[k + 2..]
  {
  }

  ghost predicate NoTwins(ws: seq<Worker>) {
    forall i, j :: 0 <= i < j < |ws| ==> !Twins(ws[i], ws[j])
  }

  /** What every reachable state satisfies. */
  ghost predicate Inv(c: Local, s: State) {
    && Registered(c, s.workers) && NoTwins(s.workers)
    && (s.planReady ==> s.planGen <= s.generation)
    && (Fresh(s) ==> PlanOk(c, s.plan) && AllServed(s.plan, s.workers))
  }

  lemma {:induction false} DropTwinsKeeps(ws: seq<Worker>, w: Worker)
    requires NoTwins(ws)
    ensures var r := DropTwins(ws, w);
      && NoTwins(r) && NoTwins([w] + r)
      && (forall x :: x in r <==> x in ws && !Twins(x, w))
  {
    if ws != [] {
      DropTwinsKeeps(ws[1..], w);
      var r := DropTwins(ws[1..], w);
      assert forall x <- ws :: x == ws[0] || x in ws[1..];
      if !Twins(ws[0], w) { NoTwinsCons(ws[0], r); }
    }
    NoTwinsCons(w, DropTwins(ws, w));
  }

  lemma DropTwinsStep(head: seq<Worker>, x: Worker, tail: seq<Worker>, w: Worker)
    ensures DropTwins([], w) == []
    ensures head + DropTwins([x] + tail, w) == (if Twins(x, w) then head else head + [x]) + DropTwins(tail, w)
  {
    assert ([x] + tail)[1..] == tail;
  }

  lemma NoTwinsCons(h: Worker, r: seq<Worker>)
    requires NoTwins(r) && forall x <- r :: !Twins(h, x)
    ensures NoTwins([h] + r)
  {
  }

  lemma {:induction false} RemoveFirstKeeps(ws: seq<Worker>, p: Worker -> bool)
    ensures var r := RemoveFirst(ws, p);
      && (forall x <- r :: x in ws) && (forall x <- ws :: !p(x) ==> x in r)
      && (|r| == |ws| ==> r == ws && forall x <- ws :: !p(x))
      && |r| <= |ws|
  {
    if ws != [] {
      RemoveFirstKeeps(ws[1..], p);
      assert forall x <- ws :: x == ws[0] || x in ws[1..];
    }
  }

  lemma {:induction false} RemoveFirstNoTwins(ws: seq<Worker>, p: Worker -> bool)
    requires NoTwins(ws)
    ensures NoTwins(RemoveFirst(ws, p))
  {
    hide Twins;
    if ws != [] && !p(ws[0]) {
      RemoveFirstNoTwins(ws[1..], p);
      RemoveFirstKeeps(ws[1..], p);
      var r := RemoveFirst(ws[1..], p);
      forall x | x in r ensures !Twins(ws[0], x) { assert x in ws[1..]; }
      NoTwinsCons(ws[0], r);
    }
  }

  /** With no twins and one model, a hop is served by at most one worker, so removing the
      first match removes the only one. */
  lemma {:induction false} RemovesOnlyServer(c: Local, ws: seq<Worker>, e: Entry)
    requires Registered(c, ws) && NoTwins(ws)
    ensures forall x <- RemoveFirst(ws, ServingHop(e)) :: !Serves(x, e)
  {
    if ws != [] {
      if Serves(ws[0], e) {
        forall x | x in ws[1..] ensures !Serves(x, e) {
          var i :| 0 < i < |ws| && ws[i] == x;
          assert !Twins(ws[0], ws[i]) && HelloOk(c, ws[0]) && HelloOk(c, ws[i]);
        }
      } else {
        assert Registered(c, ws[1..]);
        RemovesOnlyServer(c, ws[1..], e);
      }
    }
  }

  lemma RegisteredSubset(c: Local, ws: seq<Worker>, r: seq<Worker>)
    requires Registered(c, ws) && forall x <- r :: x in ws
    ensures Registered(c, r)
  {
    forall i | 0 <= i < |r| ensures HelloOk(c, r[i]) && HostOk(r[i].host) {
      assert r[i] in ws;
    }
  }

  /** After a forget no registered worker serves any hop of the failed route, and every
      worker that served none of its hops is still registered. */
  lemma {:induction false} ForgottenHopsAreGone(c: Local, ws: seq<Worker>, es: seq<Entry>)
    requires Registered(c, ws) && NoTwins(ws)
    ensures var r := ForgetHops(ws, es);
      && Registered(c, r) && NoTwins(r) && |r| <= |ws| && (|r| == |ws| ==> r == ws)
      && (forall x <- r :: x in ws && forall e <- es :: !Serves(x, e))
      && (forall x <- ws :: (forall e <- es :: !Serves(x, e)) ==> x in r)
  {
    if es != [] {
      var n := |es| - 1;
      ForgottenHopsAreGone(c, ws, es[..n]);
      var was := ForgetHops(ws, es[..n]);
      RemoveFirstKeeps(was, ServingHop(es[n]));
      RemoveFirstNoTwins(was, ServingHop(es[n]));
      RemovesOnlyServer(c, was, es[n]);
      RegisteredSubset(c, was, RemoveFirst(was, ServingHop(es[n])));
      assert forall e <- es :: e in es[..n] || e == es[n];
    }
  }

  /** In their own fields: a forget takes exactly the workers that announced some hop's
      host, port, range and output flag. */
  lemma ForgetInFields(c: Local, s: State, x: Worker)
    requires Inv(c, s)
    ensures x in Forgetting(s).workers <==> x in s.workers && forall e <- s.plan ::
      e.host != x.host || e.port != x.port || e.start != x.start || e.end != x.end || (e.flags % 2 == 0) == x.hasOutput
    ensures Forgetting(s).plan == [] && (Forgetting(s).generation == s.generation <==> Forgetting(s).workers == s.workers)
  {
    ForgottenHopsAreGone(c, s.workers, s.plan);
    assert forall e <- s.plan :: Serves(x, e) <==>
      !(e.host != x.host || e.port != x.port || e.start != x.start || e.end != x.end || (e.flags % 2 == 0) == x.hasOutput);
  }

  lemma EntryServes(w: Worker)
    ensures Serves(w, EntryOf(w))
  {
  }

  /** So once any hop of a route was served by a registered worker, forgetting the route
      moves the generation and no fresh plan survives it. */
  lemma ForgetMovesGeneration(c: Local, s: State)
    requires Inv(c, s)
    ensures Fresh(s) && s.plan != [] ==> Forgetting(s).generation == s.generation + 1
  {
    ForgottenHopsAreGone(c, s.workers, s.plan);
    if Fresh(s) && s.plan != [] {
      assert ServedBy(s.plan[0], s.workers);
      var w :| w in s.workers && EntryOf(w) == s.plan[0];
      EntryServes(w);
      assert w !in ForgetHops(s.workers, s.plan);
    }
  }

  lemma StepKeepsInv(c: Local, s: State, ev: Event)
    requires Inv(c, s) && Enabled(c, s, ev)
    ensures Inv(c, Next(s, ev))
    ensures s.generation <= Next(s, ev).generation
    ensures Next(s, ev).generation == s.generation ==> Next(s, ev).workers == s.workers
  {
    hide ForgetHops, HelloOk, HostOk;
    match ev
    case Register(w) =>
      DropTwinsKeeps(s.workers, w);
      RegisteredSubset(c, s.workers, DropTwins(s.workers, w));
    case Remove(fd) =>
      RemoveFirstKeeps(s.workers, ByFd(fd));
      RemoveFirstNoTwins(s.workers, ByFd(fd));
      RegisteredSubset(c, s.workers, RemoveFirst(s.workers, ByFd(fd)));
    case Forget =>
      ForgottenHopsAreGone(c, s.workers, s.plan);
      ForgetMovesGeneration(c, s);
    case _ =>
  }

  lemma SortedIsRegistered(c: Local, ws: seq<Worker>, sorted: seq<Worker>)
    requires Registered(c, ws) && Ordered(sorted) && multiset(sorted) == multiset(ws)
    ensures Registered(c, sorted) && Sorted(sorted)
  {
    forall x | x in sorted ensures x in ws { assert x in multiset(ws); }
    RegisteredSubset(c, ws, sorted);
  }

  lemma ServedAfterSort(es: seq<Entry>, ws: seq<Worker>, sorted: seq<Worker>)
    requires multiset(sorted) == multiset(ws) && forall i :: 0 <= i < |es| ==> ServedBy(es[i], sorted)
    ensures AllServed(es, ws)
  {
    forall x | x in sorted ensures x in ws { assert x in multiset(ws); }
  }

  ghost predicate IsRun(c: Local, states: seq<State>, events: seq<Event>) {
    && |states| == |events| + 1 && states[0] == EMPTY
    && forall i :: 0 <= i < |events| ==> Enabled(c, states[i], events[i]) && states[i + 1] == Next(states[i], events[i])
  }

  lemma {:induction false} RunKeepsInv(c: Local, states: seq<State>, events: seq<Event>, i: nat)
    requires IsRun(c, states, events) && i < |states|
    ensures Inv(c, states[i])
  {
    hide Inv, Enabled, Next;
    if i == 0 {
      EmptyInv(c);
    } else {
      RunKeepsInv(c, states, events, i - 1);
      assert states[i - 1 + 1] == Next(states[i - 1], events[i - 1]);
      StepKeepsInv(c, states[i - 1], events[i - 1]);
    }
  }

  lemma EmptyInv(c: Local)
    ensures Inv(c, EMPTY)
  {
  }

  /** Equal generations mean equal registries, however far apart in a run. */
  lemma {:induction false} GenerationFixesRegistry(c: Local, states: seq<State>, events: seq<Event>, i: nat, j: nat)
    requires IsRun(c, states, events) && i <= j < |states|
    ensures states[i].generation <= states[j].generation
    ensures states[i].generation == states[j].generation ==> states[i].workers == states[j].workers
    decreases j
  {
    hide Inv, Enabled, Next;
    if i < j {
      GenerationFixesRegistry(c, states, events, i, j - 1);
      RunKeepsInv(c, states, events, j - 1);
      assert states[j - 1 + 1] == Next(states[j - 1], events[j - 1]);
      StepKeepsInv(c, states[j - 1], events[j - 1]);
    }
  }

  /** In any run, a plan that would be reused is one every hop of which is a registered
      worker, each by exactly one. */
  lemma ReusedPlanIsLive(c: Local, states: seq<State>, events: seq<Event>, i: nat)
    requires IsRun(c, states, events) && i < |states| && Fresh(states[i])
    ensures PlanOk(c, states[i].plan) && AllServed(states[i].plan, states[i].workers)
    ensures forall e, a, b :: a in states[i].workers && b in states[i].workers && Serves(a, e) && Serves(b, e) ==> a == b
  {
    RunKeepsInv(c, states, events, i);
    var ws := states[i].workers;
    forall e, a, b | a in ws && b in ws && Serves(a, e) && Serves(b, e)
      ensures a == b
    {
      var m :| 0 <= m < |ws| && ws[m] == a;
      var n :| 0 <= n < |ws| && ws[n] == b;
      assert HelloOk(c, ws[m]) && HelloOk(c, ws[n]);
      assert Twins(ws[m], ws[n]) && Twins(ws[n], ws[m]);
    }
  }

  /** The registry and the session's cached plan, as the coordinator holds them. */
  class Coordinator {
    const local: Local
    var workers: seq<Worker>
    var generation: nat
    var down: bool
    var plan: seq<Entry>
    var planReady: bool
    var planGen: nat

    ghost function Abs(): State
      reads this
    {
      State(workers, generation, down, plan, planReady, planGen)
    }

    ghost predicate Valid()
      reads this
    {
      0 < local.nLayers && local.end < local.nLayers && Inv(local, Abs())
    }

    constructor (local: Local)
      requires 0 < local.nLayers && local.end < local.nLayers
      ensures Valid() && this.local == local && Abs() == EMPTY
    {
      this.local := local;
      workers, generation, down, plan, planReady, planGen := [], 0, false, [], false, 0;
    }

    /** Registers a checked worker, dropping every stale entry it replaces. */
    method Register(w: Worker)
      requires Valid() && HelloOk(local, w) && HostOk(w.host)
      modifies this
      ensures Valid() && Abs() == Next(old(Abs()), Event.Register(w))
    {
      StepKeepsInv(local, Abs(), Event.Register(w));
      hide Inv, HelloOk, HostOk;
      if down { return; }
      DropStale(w);
      workers, generation := [w] + workers, generation + 1;
    }

    /** Drops every entry that `w` replaces. */
    method DropStale(w: Worker)
      modifies `workers
      ensures workers == DropTwins(old(workers), w)
    {
      hide Twins, DropTwins;
      var i := 0;
      assert workers[..0] + DropTwins(workers[0..], w) == DropTwins(workers, w);
      while i < |workers|
        invariant i <= |workers|
        invariant workers[..i] + DropTwins(workers[i..], w) == DropTwins(old(workers), w)
        decreases |workers| - i
      {
        var head, tail := workers[..i], workers[i + 1..];
        DropTwinsStep(head, workers[i], tail, w);
        assert workers[i..] == [workers[i]] + tail;
        if Twins(workers[i], w) {
          workers := head + tail;
          assert workers[..i] == head && workers[i..] == tail;
        } else {
          assert workers[..i + 1] == head + [workers[i]];
          i := i + 1;
        }
      }
      assert workers[i..] == [] && workers[..i] + [] == workers;
      DropTwinsStep([], w, [], w);
    }

    /** Removes the worker behind a closed connection. */
    method Remove(fd: int)
      requires Valid()
      modifies this
      ensures Valid() && Abs() == Next(old(Abs()), Event.Remove(fd))
    {
      StepKeepsInv(local, Abs(), Event.Remove(fd));
      hide Inv;
      var removed := Unlink(ByFd(fd));
      if removed { generation := generation + 1; }
    }

    /** Takes the first matching entry out of the list. */
    method Unlink(match': Worker -> bool) returns (removed: bool)
      modifies `workers
      ensures workers == RemoveFirst(old(workers), match')
      ensures removed <==> |workers| < |old(workers)|
    {
      for i := 0 to |workers|
        invariant workers == old(workers)
        invariant RemoveFirst(workers, match') == workers[..i] + RemoveFirst(workers[i..], match')
      {
        if match'(workers[i]) {
          workers := workers[..i] + workers[i + 1..];
          return true;
        }
      }
      removed := false;
    }

    /** Forgets the workers of the failed plan, hop by hop, and frees the plan. */
    method Forget()
      requires Valid() && planReady
      modifies this
      ensures Valid() && Abs() == Next(old(Abs()), Event.Forget)
    {
      StepKeepsInv(local, Abs(), Event.Forget);
      ForgottenHopsAreGone(local, workers, plan);
      hide Inv, Serves;
      var removedAny := false;
      for i := 0 to |plan|
        invariant unchanged(`generation, `down, `plan, `planReady, `planGen)
        invariant workers == ForgetHops(old(workers), plan[..i])
        invariant removedAny <==> |workers| < |old(workers)|
        invariant |workers| <= |old(workers)|
      {
        assert plan[..i + 1][..i] == plan[..i];
        RemoveFirstKeeps(workers, ServingHop(plan[i]));
        var removed := Unlink(ServingHop(plan[i]));
        removedAny := removedAny || removed;
      }
      assert plan[..|plan|] == plan;
      if removedAny { generation := generation + 1; }
      plan := [];
    }

    /** Sorts a copy of the registry and searches it for a route. */
    method Build() returns (r: Option<seq<Entry>>)
      requires Valid()
      ensures Buildable(local, workers, r)
    {
      hide NoTwins, Complete, PlanOk, HelloOk, HostOk, Blob, Ordered, Sorted;
      var sorted := SortWorkers(workers);
      SortedIsRegistered(local, workers, sorted);
      hide Registered, AllServed;
      var built := BuildPlan(local, sorted);
      if built.Plan? {
        ServedAfterSort(built.entries, workers, sorted);
        return Some(built.entries);
      }
      r := None;
    }

    /** Reuses a plan built at the current generation, and builds one otherwise. */
    method EnsureRoute() returns (ok: bool)
      requires Valid()
      modifies this
      ensures Valid()
      ensures ok <==> Fresh(Abs())
      ensures exists r :: Enabled(local, old(Abs()), Ensure(r)) && Abs() == Next(old(Abs()), Ensure(r))
    {
      hide Buildable, NoTwins, PlanOk, AllServed, Registered;
      if planReady && planGen == generation {
        assert Enabled(local, Abs(), Ensure(None));
        return true;
      }
      var r := Build();
      hide Inv;
      StepKeepsInv(local, Abs(), Ensure(r));
      if r.Some? {
        plan, planReady, planGen := r.value, true, generation;
      } else {
        plan, planReady, planGen := [], false, 0;
      }
      assert Enabled(local, old(Abs()), Ensure(r)) && Abs() == Next(old(Abs()), Ensure(r));
      ok := r.Some?;
    }
  }
}
