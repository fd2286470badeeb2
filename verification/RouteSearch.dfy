/** Worker registration checks and the backtracking search for a layer route. */
module RouteSearch {
  import opened Bytes

  /** A registry entry: the fields of a HELLO plus where it came from. */
  datatype Worker = Worker(fd: int, host: seq<Byte>, model: U32, start: U32, end: U32,
                           hasOutput: bool, hasHidden: bool, ctx: U32, nLayers: U32, port: U32)

  /** What the coordinator knows about itself. */
  datatype Local = Local(model: U32, nLayers: U32, start: U32, end: U32, ctx: U32,
                         hasOutput: bool, canOutputHead: bool)

  /** The checks a HELLO must pass before the worker is registered. */
  predicate HelloOk(c: Local, w: Worker) {
    && w.model == c.model && w.nLayers == c.nLayers
    && w.start < c.nLayers && w.end < c.nLayers && w.start <= w.end
    && (w.hasOutput ==> w.end + 1 == c.nLayers)
    && (c.ctx != 0 ==> c.ctx <= w.ctx)
    && 0 < w.port <= 65535
  }

  /** The handshake's checks, in source order. */
  method CheckHello(c: Local, w: Worker) returns (ok: bool)
    ensures ok == HelloOk(c, w)
    ensures ok <==>
      && w.model == c.model && w.nLayers == c.nLayers && w.start <= w.end < c.nLayers
      && (!w.hasOutput || w.end == c.nLayers - 1) && (c.ctx == 0 || w.ctx >= c.ctx) && 1 <= w.port <= 65535
  {
    if w.model != c.model || w.nLayers != c.nLayers { return false; }
    if w.start >= w.nLayers || w.end >= w.nLayers || w.end < w.start { return false; }
    if w.hasOutput && w.end + 1 != w.nLayers { return false; }
    if c.ctx != 0 && w.ctx < c.ctx { return false; }
    ok := w.port != 0 && w.port <= 65535;
  }

  predicate CandidateOk(w: Worker, last: nat, canOutputHead: bool) {
    var needsHidden := w.end < last || !w.hasOutput;
    && !(needsHidden && !w.hasHidden)
    && !(w.end >= last && !w.hasOutput && !canOutputHead)
  }

  /** The sort order the search needs of its list: ascending first layer. */
  ghost predicate Sorted(ws: seq<Worker>) {
    forall i, j :: 0 <= i < j < |ws| ==> ws[i].start <= ws[j].start
  }

  ghost predicate Ranged(ws: seq<Worker>) {
    forall i :: 0 <= i < |ws| ==> ws[i].start <= ws[i].end
  }

  /** A contiguous chain of acceptable workers from layer `from`, not yet at `last`. */
  ghost predicate Partial(ws: seq<Worker>, last: nat, head: bool, p: seq<Worker>, from: nat)
    decreases |p|
  {
    p != [] ==>
      && p[0] in ws && CandidateOk(p[0], last, head)
      && p[0].start == from && p[0].end < last
      && Partial(ws, last, head, p[1..], p[0].end + 1)
  }

  /** The layer such a chain needs next. */
  ghost function Frontier(p: seq<Worker>, from: nat): nat {
    if p == [] then from else Frontier(p[1..], p[0].end + 1)
  }

  /** A chain of acceptable workers from layer `from` through layer `last`. */
  ghost predicate Complete(ws: seq<Worker>, last: nat, head: bool, p: seq<Worker>, from: nat)
    decreases |p|
  {
    && p != []
    && p[0] in ws && CandidateOk(p[0], last, head) && p[0].start == from
    && (if p[0].end >= last then |p| == 1 else Complete(ws, last, head, p[1..], p[0].end + 1))
  }

  ghost predicate NoRoute(ws: seq<Worker>, last: nat, head: bool, from: nat) {
    forall p :: !Complete(ws, last, head, p, from)
  }

  /** How many workers could still be appended to a path whose frontier is `from`. */
  ghost function CountFrom(ws: seq<Worker>, from: nat): nat {
    if ws == [] then 0 else (if ws[0].start >= from then 1 else 0) + CountFrom(ws[1..], from)
  }

  lemma {:induction false} CountDrops(ws: seq<Worker>, i: nat, from: nat, to: nat)
    requires i < |ws| && ws[i].start == from < to
    ensures CountFrom(ws, to) < CountFrom(ws, from)
  {
    if i > 0 {
      CountDrops(ws[1..], i - 1, from, to);
    } else {
      CountShrinks(ws[1..], from, to);
    }
  }

  lemma {:induction false} CountShrinks(ws: seq<Worker>, from: nat, to: nat)
    requires from <= to
    ensures CountFrom(ws, to) <= CountFrom(ws, from)
  {
    if ws != [] { CountShrinks(ws[1..], from, to); }
  }

  lemma {:induction false} CountAtMost(ws: seq<Worker>, from: nat)
    ensures CountFrom(ws, from) <= |ws|
  {
    if ws != [] { CountAtMost(ws[1..], from); }
  }

  /** Everything a failed search tells: no chain completes, and `missing` is the furthest
      frontier any chain reaches, or the caller's own value if that is further. */
  ghost predicate Exhausted(ws: seq<Worker>, last: nat, head: bool, from: nat, was: nat, missing: nat, far: seq<Worker>) {
    && (forall p :: !Complete(ws, last, head, p, from))
    && (forall p :: Partial(ws, last, head, p, from) ==> Frontier(p, from) <= missing)
    && was <= missing
    && Partial(ws, last, head, far, from)
    && (missing == was || missing == Frontier(far, from))
  }

  /** The part of that already known after the first `i` workers. */
  ghost predicate Tried(ws: seq<Worker>, last: nat, head: bool, from: nat, i: nat, missing: nat)
    requires i <= |ws|
  {
    && (forall p :: Complete(ws, last, head, p, from) ==> p[0] !in ws[..i])
    && (forall p :: Partial(ws, last, head, p, from) && p != [] && p[0] in ws[..i] ==> Frontier(p, from) <= missing)
  }

  lemma SkipTried(ws: seq<Worker>, last: nat, head: bool, from: nat, i: nat, missing: nat)
    requires i < |ws| && Tried(ws, last, head, from, i, missing)
    requires ws[i].start < from || !CandidateOk(ws[i], last, head)
    ensures Tried(ws, last, head, from, i + 1, missing)
  {
    assert ws[..i + 1] == ws[..i] + [ws[i]];
  }

  lemma ChildTried(ws: seq<Worker>, last: nat, head: bool, from: nat, i: nat, missing: nat,
                   childMissing: nat, far: seq<Worker>)
    requires i < |ws| && Tried(ws, last, head, from, i, missing)
    requires ws[i].end < last
    requires Exhausted(ws, last, head, ws[i].end + 1, ws[i].end + 1, childMissing, far)
    ensures Tried(ws, last, head, from, i + 1, if childMissing > missing then childMissing else missing)
  {
    assert ws[..i + 1] == ws[..i] + [ws[i]];
    forall p | Complete(ws, last, head, p, from)
      ensures p[0] !in ws[..i + 1]
    {
      assert !Complete(ws, last, head, p[1..], ws[i].end + 1);
    }
  }

  lemma SearchDone(ws: seq<Worker>, last: nat, head: bool, from: nat, i: nat, was: nat, missing: nat, far: seq<Worker>)
    requires Sorted(ws) && i <= |ws| && Tried(ws, last, head, from, i, missing)
    requires i == |ws| || ws[i].start > from
    requires from <= was <= missing && Partial(ws, last, head, far, from)
    requires missing == was || missing == Frontier(far, from)
    ensures Exhausted(ws, last, head, from, was, missing, far)
  {
    forall w | w in ws && w.start == from
      ensures w in ws[..i]
    {
      var j :| 0 <= j < |ws| && ws[j] == w;
      assert j < i;
    }
  }

  lemma TriedNone(ws: seq<Worker>, last: nat, head: bool, from: nat, missing: nat)
    ensures Tried(ws, last, head, from, 0, missing) && Partial(ws, last, head, [], from)
  {
  }

  lemma ConsChain(ws: seq<Worker>, last: nat, head: bool, w: Worker, p: seq<Worker>)
    requires w in ws && CandidateOk(w, last, head)
    ensures w.end >= last && p == [] ==> Complete(ws, last, head, [w] + p, w.start)
    ensures w.end < last && Complete(ws, last, head, p, w.end + 1) ==> Complete(ws, last, head, [w] + p, w.start)
    ensures w.end < last && Partial(ws, last, head, p, w.end + 1) ==>
      Partial(ws, last, head, [w] + p, w.start) && Frontier([w] + p, w.start) == Frontier(p, w.end + 1)
  {
    assert ([w] + p)[1..] == p;
  }

  lemma ExhaustedMeans(ws: seq<Worker>, last: nat, head: bool, from: nat, missing: nat, far: seq<Worker>)
    requires Exhausted(ws, last, head, from, from, missing, far)
    ensures Partial(ws, last, head, far, from)
    ensures missing > from ==> missing == Frontier(far, from)
  {
  }

  /** The recursive search. `path` is the caller's n-slot buffer, used as a stack. */
  method Search(ws: seq<Worker>, next: nat, last: nat, head: bool, path: array<Worker>, len: nat, missing: nat)
    returns (found: bool, len': nat, missing': nat, ghost far: seq<Worker>)
    requires Sorted(ws) && Ranged(ws) && next <= missing
    requires len + CountFrom(ws, next) <= path.Length
    modifies path
    ensures len <= len' <= path.Length && path[..len] == old(path[..len])
    ensures found ==> Complete(ws, last, head, path[len..len'], next)
    ensures !found ==> len' == len
    ensures !found ==> Exhausted(ws, last, head, next, missing, missing', far)
    decreases last + 1 - next
  {
    hide Complete, Partial, Frontier, Exhausted, Tried, CandidateOk, CountFrom;
    var i := 0;
    len', missing', far := len, missing, [];
    TriedNone(ws, last, head, next, missing);
    while i < |ws| && ws[i].start <= next
      invariant 0 <= i <= |ws|
      invariant len' == len && path[..len] == old(path[..len])
      invariant missing <= missing'
      invariant Partial(ws, last, head, far, next)
      invariant missing' == missing || missing' == Frontier(far, next)
      invariant Tried(ws, last, head, next, i, missing')
    {
      var w := ws[i];
      if w.start < next || !CandidateOk(w, last, head) {
        SkipTried(ws, last, head, next, i, missing');
        i := i + 1;
        continue;
      }
      CountDrops(ws, i, next, w.end + 1);
      path[len] := w;
      if w.end >= last {
        ConsChain(ws, last, head, w, []);
        assert path[len..len + 1] == [w] + [];
        return true, len + 1, missing', far;
      }
      var childFound, childLen, childMissing;
      ghost var childFar;
      childFound, childLen, childMissing, childFar :=
        Search(ws, w.end + 1, last, head, path, len + 1, w.end + 1);
      assert path[..len + 1][..len] == path[..len] && path[..len + 1][len] == w;
      if childFound {
        ConsChain(ws, last, head, w, path[len + 1..childLen]);
        assert path[len..childLen] == [w] + path[len + 1..childLen];
        return true, childLen, missing', far;
      }
      ChildTried(ws, last, head, next, i, missing', childMissing, childFar);
      ExhaustedMeans(ws, last, head, w.end + 1, childMissing, childFar);
      if childMissing > missing' {
        ConsChain(ws, last, head, w, childFar);
        far := if childMissing > w.end + 1 then [w] + childFar else [w] + [];
        ConsChain(ws, last, head, w, []);
        TriedNone(ws, last, head, w.end + 1, 0);
        FrontierOfNone(w.end + 1);
        missing' := childMissing;
      }
      i := i + 1;
    }
    SearchDone(ws, last, head, next, i, missing, missing', far);
    found := false;
  }

  // ---- Routes in the workers' own fields ----

  /** Each range starts where the one before it ended. */
  ghost predicate Contiguous(p: seq<Worker>, from: nat) {
    && (p != [] ==> p[0].start == from)
    && (forall i :: 0 < i < |p| ==> p[i].start == p[i - 1].end + 1)
  }

  /** A route: contiguous workers from `ws`, the last of them the first to reach layer
      `last`; every hop can return hidden states, unless it is the last and has its own
      output head, and there is an output head at the end or at the coordinator. */
  ghost predicate IsRoute(ws: seq<Worker>, last: nat, head: bool, p: seq<Worker>, from: nat) {
    && p != [] && (forall w <- p :: w in ws) && Contiguous(p, from)
    && (forall i :: 0 <= i < |p| - 1 ==> p[i].end < last && p[i].hasHidden)
    && p[|p| - 1].end >= last
    && (p[|p| - 1].hasHidden || p[|p| - 1].hasOutput) && (p[|p| - 1].hasOutput || head)
  }

  /** The beginning of one: contiguous workers with hidden states, all short of `last`. */
  ghost predicate IsStart(ws: seq<Worker>, last: nat, p: seq<Worker>, from: nat) {
    Contiguous(p, from) && (forall w <- p :: w in ws && w.end < last && w.hasHidden)
  }

  ghost function NextLayer(p: seq<Worker>, from: nat): nat { if p == [] then from else p[|p| - 1].end + 1 }

  lemma ContiguousCons(p: seq<Worker>, from: nat)
    requires p != []
    ensures Contiguous(p, from) <==> p[0].start == from && Contiguous(p[1..], p[0].end + 1)
  {
    var t := p[1..];
    assert forall i :: 0 < i < |p| ==> p[i] == t[i - 1];
    assert forall i :: 0 <= i < |t| ==> t[i] == p[i + 1];
    if Contiguous(p, from) {
      forall i | 0 < i < |t| ensures t[i].start == t[i - 1].end + 1 {
        assert p[i + 1].start == p[i + 1 - 1].end + 1;
      }
    }
    if Contiguous(t, p[0].end + 1) {
      forall i | 0 < i < |p| ensures p[i].start == p[i - 1].end + 1 {
        assert i > 1 ==> t[i - 1].start == t[i - 1 - 1].end + 1;
      }
    }
  }

  lemma RouteCons(ws: seq<Worker>, last: nat, head: bool, p: seq<Worker>, from: nat)
    requires |p| > 1
    ensures IsRoute(ws, last, head, p, from) <==>
      && p[0] in ws && p[0].start == from && p[0].end < last && p[0].hasHidden
      && IsRoute(ws, last, head, p[1..], p[0].end + 1)
  {
    hide Contiguous;
    ContiguousCons(p, from);
    var t := p[1..];
    assert p == [p[0]] + t;
    assert forall i :: 0 < i < |p| - 1 ==> p[i] == t[i - 1];
    assert forall i :: 0 <= i < |t| - 1 ==> t[i] == p[i + 1];
  }

  lemma RouteOfOne(ws: seq<Worker>, last: nat, head: bool, w: Worker, from: nat)
    ensures IsRoute(ws, last, head, [w], from) <==>
      && w in ws && w.start == from && w.end >= last && (w.hasHidden || w.hasOutput) && (w.hasOutput || head)
  {
    var p := [w];
    assert p[0] == w && |p| - 1 == 0;
    assert Contiguous(p, from) <==> p[0].start == from;
  }

  lemma {:induction false} RouteInFields(ws: seq<Worker>, last: nat, head: bool, p: seq<Worker>, from: nat)
    ensures Complete(ws, last, head, p, from) <==> IsRoute(ws, last, head, p, from)
    decreases |p|
  {
    if |p| == 1 {
      RouteOfOne(ws, last, head, p[0], from);
      assert p == [p[0]] && p[1..] == [];
    } else if |p| > 1 {
      RouteCons(ws, last, head, p, from);
      RouteInFields(ws, last, head, p[1..], p[0].end + 1);
      hide IsRoute;
    }
  }

  lemma EmptyContiguous(from: nat)
    ensures Contiguous([], from)
  {
  }

  lemma {:induction false} StartInFields(ws: seq<Worker>, last: nat, head: bool, p: seq<Worker>, from: nat)
    ensures Partial(ws, last, head, p, from) <==> IsStart(ws, last, p, from)
    ensures Frontier(p, from) == NextLayer(p, from)
    decreases |p|
  {
    if p != [] {
      hide Contiguous;
      ContiguousCons(p, from);
      StartInFields(ws, last, head, p[1..], p[0].end + 1);
      assert p == [p[0]] + p[1..];
    } else {
      EmptyContiguous(from);
    }
  }

  /** A route is found if and only if there is one; and otherwise `layer` is the furthest
      layer that the beginning of a route leaves to be served. */
  ghost predicate Answers(ws: seq<Worker>, next: nat, last: nat, head: bool, r: Found) {
    match r
    case Route(path) => IsRoute(ws, last, head, path, next)
    case Missing(layer) =>
      && (forall p :: !IsRoute(ws, last, head, p, next))
      && (forall p :: IsStart(ws, last, p, next) ==> NextLayer(p, next) <= layer)
      && (exists p :: IsStart(ws, last, p, next) && NextLayer(p, next) == layer)
  }

  datatype Found = Route(path: seq<Worker>) | Missing(layer: nat)

  const NO_WORKER: Worker := Worker(-1, [], 0, 0, 0, false, false, 0, 0, 0)

  /** The call the plan builder makes: a path buffer of one slot per worker, and the
      first layer itself as the first guess at what is missing. */
  method FindRoute(ws: seq<Worker>, next: nat, last: nat, head: bool) returns (r: Found)
    requires Sorted(ws) && Ranged(ws)
    ensures r.Missing? <==> NoRoute(ws, last, head, next)
    ensures r.Route? ==> Complete(ws, last, head, r.path, next)
    ensures Answers(ws, next, last, head, r)
  {
    var path := new Worker[|ws|](_ => NO_WORKER);
    CountAtMost(ws, next);
    ghost var far;
    var found, len, missing;
    found, len, missing, far := Search(ws, next, last, head, path, 0, next);
    hide Complete, Partial, Frontier, IsRoute, IsStart, NextLayer, CandidateOk;
    forall p: seq<Worker>
      ensures Complete(ws, last, head, p, next) <==> IsRoute(ws, last, head, p, next)
      ensures Partial(ws, last, head, p, next) <==> IsStart(ws, last, p, next)
      ensures Frontier(p, next) == NextLayer(p, next)
    {
      RouteInFields(ws, last, head, p, next);
      StartInFields(ws, last, head, p, next);
    }
    if found {
      return Route(path[0..len]);
    }
    TriedNone(ws, last, head, next, 0);
    FrontierOfNone(next);
    return Missing(missing);
  }

  lemma FrontierOfNone(from: nat)
    ensures Frontier([], from) == from
  {
  }
}
