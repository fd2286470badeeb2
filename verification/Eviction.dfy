/** Keeping the disk store within its byte budget: the size check before a file is
    written, the eviction pass that makes room for it, and the store that follows. */
module Eviction {
  import opened Bytes
  import opened Chunks
  import opened Options
  import opened KvEntry
  import S = Sha1

  const FIXED: nat := 52

  /** The checkpoint about to be stored. */
  datatype Incoming = Incoming(text: seq<S.U8>, model: Byte, quantBits: Byte, ctx: U32,
                               rejectDifferentQuant: bool)

  /** What the scores depend on; `decay` is 2 to the minus elapsed seconds over six
      hours. */
  datatype Policy = Policy(now: nat, decay: nat -> real, incoming: Option<Incoming>)

  /** A running continuation that the incoming text extends. */
  ghost predicate Superseded(e: Entry, p: Policy) {
    p.incoming.Some? && CouldSupersede(e, p.incoming.value)
    && S.IsDigest(p.incoming.value.text[..e.textBytes], e.sha)
  }

  predicate CouldSupersede(e: Entry, i: Incoming) {
    && e.reason in {Continued, BankCheckpoint}
    && 0 < e.textBytes < |i.text| && e.model == i.model
    && (i.rejectDifferentQuant ==> e.quantBits == i.quantBits)
    && i.ctx <= e.ctx
  }

  predicate Anchor(r: Reason) { r in {Cold, Evict, Shutdown, BankEvict, BankShutdown, BankCheckpoint} }

  /** Hits, decayed by the time since the entry was last used. */
  function EffectiveHits(e: Entry, p: Policy): real {
    var usedAt := if e.lastUsed != 0 then e.lastUsed else e.created;
    if usedAt == 0 then 0.0
    else if p.now <= usedAt then e.hits as real
    else Faded(e.hits as real, p.decay(p.now - usedAt))
  }

  function Faded(hits: real, factor: real): real {
    var left := hits * factor;
    if left < 0.01 then 0.0 else left
  }

  function ScoreWith(e: Entry, p: Policy, superseded: bool): real {
    if e.fileSize == 0 then 0.0
    else
      var hits := EffectiveHits(e, p);
      var base := Density(hits, e.tokens, e.fileSize);
      var anchored := if Anchor(e.reason) then base * 2.0 else base;
      if superseded then Lowered(anchored, hits) else anchored
  }

  function Density(hits: real, tokens: nat, size: nat): real
    requires size > 0
  {
    (hits + 1.0) * tokens as real / size as real
  }

  /** What a superseded checkpoint's score is lowered to, less so for a used one. */
  function Lowered(score: real, hits: real): real
  {
    var h := if hits > 0.0 then hits / (hits + 1.0) else 0.0;
    score * (0.05 + 0.45 * h)
  }

  ghost function Score(e: Entry, p: Policy): real { ScoreWith(e, p, Superseded(e, p)) }

  method ScoreOf(e: Entry, p: Policy) returns (s: real)
    ensures s == Score(e, p)
  {
    hide ScoreWith, S.IsDigest;
    var superseded := false;
    if p.incoming.Some? && CouldSupersede(e, p.incoming.value) {
      var prefix := p.incoming.value.text[..e.textBytes];
      var sha := S.HashChunks([prefix]);
      ConcatOne(prefix);
      if S.IsDigest(prefix, e.sha) { S.DigestIsUnique(prefix, sha, e.sha); }
      superseded := sha == e.sha;
    }
    s := ScoreWith(e, p, superseded);
  }

  // ---- What the score comes to ----

  /** Powers of one half, one for each six hours. */
  ghost predicate HalfLife(decay: nat -> real) {
    && decay(0) == 1.0 && decay(21600) == 0.5
    && (forall a: nat, b: nat :: decay(a + b) == decay(a) * decay(b))
    && (forall a: nat :: 0.0 < decay(a) <= 1.0)
  }

  lemma Halved(decay: nat -> real, a: nat)
    requires HalfLife(decay)
    ensures decay(a + 21600) == decay(a) * 0.5 && 0.0 < decay(a) <= 1.0
  {
  }

  lemma FadedLaws(hits: real, f: real)
    requires hits >= 0.0 && 0.0 < f <= 1.0
    ensures 0.0 <= Faded(hits, f) <= hits
    ensures Faded(hits, f * 0.5) == if Faded(hits, f) >= 0.02 then Faded(hits, f) / 2.0 else 0.0
  {
    assert 0.0 <= hits * f <= hits && hits * (f * 0.5) == hits * f / 2.0;
  }

  lemma HitsRange(e: Entry, p: Policy)
    requires HalfLife(p.decay)
    ensures 0.0 <= EffectiveHits(e, p) <= e.hits as real
  {
    hide HalfLife, Faded;
    var usedAt := if e.lastUsed != 0 then e.lastUsed else e.created;
    if p.now > usedAt {
      Halved(p.decay, p.now - usedAt);
      FadedLaws(e.hits as real, p.decay(p.now - usedAt));
    }
  }

  /** An entry counts its hits in full when just used, and not at all if it has no time of
      use; six hours on, half of them are left, or none once that is under a hundredth. */
  lemma HitsFade(e: Entry, p: Policy, later: Policy)
    requires HalfLife(p.decay) && later == p.(now := p.now + 21600)
    ensures e.lastUsed == 0 && e.created == 0 ==> EffectiveHits(e, p) == 0.0
    ensures 0 < e.created == p.now && e.lastUsed == 0 ==> EffectiveHits(e, p) == e.hits as real
    ensures p.now <= e.lastUsed && 0 < e.lastUsed ==> EffectiveHits(e, p) == e.hits as real
    ensures 0 < e.lastUsed <= p.now ==>
      EffectiveHits(e, later) == (if EffectiveHits(e, p) >= 0.02 then EffectiveHits(e, p) / 2.0 else 0.0)
  {
    hide HalfLife, Faded;
    if 0 < e.lastUsed <= p.now {
      var d, hits := p.decay(p.now - e.lastUsed), e.hits as real;
      Halved(p.decay, p.now - e.lastUsed);
      assert p.now + 21600 - e.lastUsed == p.now - e.lastUsed + 21600;
      FadedLaws(hits, d);
      if p.now == e.lastUsed { assert Faded(hits, d) == hits by { AtOnce(p.decay, e.hits); } }
    }
  }

  lemma AtOnce(decay: nat -> real, hits: nat)
    requires HalfLife(decay)
    ensures Faded(hits as real, decay(0)) == hits as real
  {
  }

  /** Tokens per byte, times one more than the hits that count, and twice that for every
      reason but four. */
  lemma ScoreLaws(e: Entry, p: Policy)
    requires e.fileSize > 0 && p.incoming == None
    ensures var plain := e.(hits := 0, reason := Unknown);
      && Score(plain, p) * e.fileSize as real == e.tokens as real
      && var unanchored := (EffectiveHits(e, p) + 1.0) * Score(plain, p);
         Score(e, p) == if e.reason in {Unknown, Continued, AgentSystem, AgentSession} then unanchored else unanchored * 2.0
  {
    var plain := e.(hits := 0, reason := Unknown);
    ScoreIs(e, p);
    ScoreIs(plain, p);
    NoHits(plain, p);
    hide *;
    DensityLaws(EffectiveHits(e, p), e.tokens, e.fileSize);
  }

  lemma DensityLaws(h: real, t: nat, b: nat)
    requires b > 0
    ensures Density(h, t, b) == (h + 1.0) * Density(0.0, t, b) && Density(0.0, t, b) * b as real == t as real
  {
    assert (0.0 + 1.0) * t as real == t as real;
    Quotients(Density(h, t, b), Density(0.0, t, b), h + 1.0, t as real, b as real);
  }

  lemma Quotients(d: real, d0: real, k: real, t: real, b: real)
    requires b > 0.0 && d == k * t / b && d0 == t / b
    ensures d == k * d0 && d0 * b == t
  {
  }

  lemma ScoreIs(e: Entry, p: Policy)
    requires e.fileSize > 0 && p.incoming == None
    ensures var base := Density(EffectiveHits(e, p), e.tokens, e.fileSize);
      Score(e, p) == if e.reason in {Unknown, Continued, AgentSystem, AgentSession} then base else base * 2.0
  {
    hide EffectiveHits, Density;
    FourReasons(e.reason);
  }

  lemma FourReasons(r: Reason)
    ensures Anchor(r) <==> r !in {Unknown, Continued, AgentSystem, AgentSession}
  {
    match r
    case Unknown | Continued | AgentSystem | AgentSession =>
    case _ =>
  }

  lemma NoHits(e: Entry, p: Policy)
    requires e.hits == 0
    ensures EffectiveHits(e, p) == 0.0
  {
    var usedAt := if e.lastUsed != 0 then e.lastUsed else e.created;
    hide Faded;
    if p.now > usedAt { NothingFades(p.decay(p.now - usedAt)); }
  }

  lemma NothingFades(f: real)
    ensures Faded(0.0, f) == 0.0
  {
  }

  /** A checkpoint scores less for the incoming text, at most half, exactly when it is a
      running continuation whose text the incoming one goes on from, of the same model, a
      quantization that will do and a context at least as large. */
  lemma SupersededScoresLess(e: Entry, p: Policy, i: Incoming)
    requires p.incoming == Some(i) && e.fileSize > 0 && e.tokens > 0 && HalfLife(p.decay)
    ensures Score(e, p) < Score(e, p.(incoming := None)) <==>
      && (e.reason == Continued || e.reason == BankCheckpoint)
      && e.model == i.model && (e.quantBits == i.quantBits || !i.rejectDifferentQuant) && e.ctx >= i.ctx
      && exists t, rest :: t + rest == i.text && t != [] && rest != [] && |t| == e.textBytes && S.IsDigest(t, e.sha)
    ensures var alone := Score(e, p.(incoming := None));
      Score(e, p) == alone || 0.05 * alone <= Score(e, p) < 0.5 * alone
  {
    hide S.IsDigest;
    if 0 < e.textBytes < |i.text| {
      assert i.text[..e.textBytes] + i.text[e.textBytes..] == i.text;
    }
    assert Superseded(e, p) <==>
      && (e.reason == Continued || e.reason == BankCheckpoint)
      && e.model == i.model && (e.quantBits == i.quantBits || !i.rejectDifferentQuant) && e.ctx >= i.ctx
      && exists t, rest :: t + rest == i.text && t != [] && rest != [] && |t| == e.textBytes && S.IsDigest(t, e.sha)
    by {
      forall t, rest | t + rest == i.text && |t| == e.textBytes ensures t == i.text[..e.textBytes] {
        assert (t + rest)[..|t|] == t;
      }
    }
    FactorRange(e, p);
    hide Superseded, ScoreWith;
    assert ScoreWith(e, p.(incoming := None), false) == ScoreWith(e, p, false) by { NotIncoming(e, p); }
    assert !Superseded(e, p.(incoming := None)) by { NotIncoming(e, p); }
  }

  lemma NotIncoming(e: Entry, p: Policy)
    ensures ScoreWith(e, p.(incoming := None), false) == ScoreWith(e, p, false)
    ensures !Superseded(e, p.(incoming := None))
  {
    SameHits(e, p);
    hide EffectiveHits, S.IsDigest;
  }

  lemma SameHits(e: Entry, p: Policy)
    ensures EffectiveHits(e, p.(incoming := None)) == EffectiveHits(e, p)
  {
    hide Faded;
  }

  lemma FactorRange(e: Entry, p: Policy)
    requires e.fileSize > 0 && e.tokens > 0 && HalfLife(p.decay)
    ensures ScoreWith(e, p, false) > 0.0
    ensures 0.05 * ScoreWith(e, p, false) <= ScoreWith(e, p, true) < 0.5 * ScoreWith(e, p, false)
  {
    HitsRange(e, p);
    hide EffectiveHits, HalfLife, Density, Lowered;
    DensityPositive(EffectiveHits(e, p), e.tokens, e.fileSize);
    LoweredRange(ScoreWith(e, p, false), EffectiveHits(e, p));
  }

  lemma DensityPositive(h: real, t: nat, b: nat)
    requires h >= 0.0 && t > 0 && b > 0
    ensures Density(h, t, b) > 0.0
  {
    PositiveProduct(h + 1.0, t as real);
    PositiveQuotient((h + 1.0) * t as real, b as real);
  }

  lemma LoweredRange(score: real, hits: real)
    requires score > 0.0 && hits >= 0.0
    ensures 0.05 * score <= Lowered(score, hits) < 0.5 * score
  {
    BelowOne(hits);
    Between(score, 0.05, 0.05 + 0.45 * (hits / (hits + 1.0)), 0.5);
  }

  lemma BelowOne(h: real)
    requires h >= 0.0
    ensures 0.0 <= h / (h + 1.0) < 1.0
  {
    assert h / (h + 1.0) == 1.0 - 1.0 / (h + 1.0);
  }

  lemma PositiveQuotient(a: real, b: real)
    requires a > 0.0 && b > 0.0
    ensures a / b > 0.0
  {
  }

  lemma PositiveProduct(a: real, b: real)
    requires a > 0.0 && b > 0.0
    ensures a * b > 0.0
  {
  }

  lemma Between(a: real, low: real, f: real, high: real)
    requires a > 0.0 && low <= f < high
    ensures low * a <= a * f < high * a
  {
  }

  function Sum(es: seq<Entry>): nat { if es == [] then 0 else es[0].fileSize + Sum(es[1..]) }

  function Without(es: seq<Entry>, i: nat): seq<Entry>
    requires i < |es|
  {
    es[..i] + es[i + 1..]
  }

  /** Lower score first, then less recently used. */
  ghost predicate Worse(a: Entry, b: Entry, p: Policy) {
    Score(a, p) < Score(b, p) || (Score(a, p) == Score(b, p) && a.lastUsed < b.lastUsed)
  }

  /** The first of the worst entries among the first `n`. */
  ghost predicate IsVictim(es: seq<Entry>, n: nat, p: Policy, v: nat) {
    && v < n <= |es|
    && (forall i :: 0 <= i < n ==> !Worse(es[i], es[v], p))
    && (forall i :: 0 <= i < v ==> Worse(es[v], es[i], p))
  }

  method FindVictim(es: seq<Entry>, p: Policy) returns (v: nat)
    requires es != []
    ensures IsVictim(es, |es|, p, v)
    ensures v < |es| && forall x <- es ::
      Score(es[v], p) < Score(x, p) || (Score(es[v], p) == Score(x, p) && es[v].lastUsed <= x.lastUsed)
    ensures forall i :: 0 <= i < v ==>
      !(Score(es[i], p) == Score(es[v], p) && es[i].lastUsed == es[v].lastUsed)
  {
    hide Score;
    v := 0;
    var low := ScoreOf(es[0], p);
    for i := 1 to |es|
      invariant IsVictim(es, i, p, v) && low == Score(es[v], p)
    {
      var score := ScoreOf(es[i], p);
      if score < low || (score == low && es[i].lastUsed < es[v].lastUsed) { v, low := i, score; }
    }
  }

  /** The removal of the next victim fails. */
  ghost predicate Stuck(es: seq<Entry>, p: Policy, removes: Entry -> bool) {
    exists v: nat :: IsVictim(es, |es|, p, v) && !removes(es[v])
  }

  /** A whole eviction: `victims` are removed one after another, each the worst of what is
      left while that exceeds the target, until the rest fits or a removal fails. */
  ghost predicate Evicts(es: seq<Entry>, target: nat, p: Policy, removes: Entry -> bool, victims: seq<Entry>, left: seq<Entry>)
    decreases |victims|
  {
    if victims == [] then left == es && (Sum(es) <= target || Stuck(es, p, removes))
    else
      && Sum(es) > target
      && exists v: nat :: IsVictim(es, |es|, p, v) && removes(es[v]) && victims[0] == es[v]
           && Evicts(Without(es, v), target, p, removes, victims[1..], left)
  }

  lemma {:induction false} SumWithout(es: seq<Entry>, i: nat)
    requires i < |es|
    ensures Sum(es) == Sum(Without(es, i)) + es[i].fileSize
    ensures multiset(es) == multiset(Without(es, i)) + multiset{es[i]}
  {
    assert es == es[..i] + [es[i]] + es[i + 1..];
    if i > 0 {
      SumWithout(es[1..], i - 1);
      assert es[1..][..i - 1] == es[1..i] && es[1..][i..] == es[i + 1..];
      assert Without(es, i) == [es[0]] + Without(es[1..], i - 1);
    } else {
      assert Without(es, 0) == es[1..];
    }
  }

  /** Takes the first victim of a nonempty eviction off its front. */
  lemma FirstVictim(es: seq<Entry>, target: nat, p: Policy, removes: Entry -> bool,
                    victims: seq<Entry>, left: seq<Entry>) returns (v: nat)
    requires victims != [] && Evicts(es, target, p, removes, victims, left)
    ensures v < |es| && IsVictim(es, |es|, p, v) && removes(es[v]) && victims[0] == es[v] && Sum(es) > target
    ensures Evicts(Without(es, v), target, p, removes, victims[1..], left)
    ensures Sum(es) == Sum(Without(es, v)) + victims[0].fileSize
    ensures multiset(es) == multiset(Without(es, v)) + multiset{victims[0]}
  {
    hide Worse;
    v :| IsVictim(es, |es|, p, v) && removes(es[v]) && victims[0] == es[v]
      && Evicts(Without(es, v), target, p, removes, victims[1..], left);
    hide Evicts;
    SumWithout(es, v);
  }

  lemma NoVictims(es: seq<Entry>, target: nat, p: Policy, removes: Entry -> bool, left: seq<Entry>)
    requires Evicts(es, target, p, removes, [], left)
    ensures left == es && (Sum(es) <= target || Stuck(es, p, removes))
  {
  }

  /** An eviction loses nothing but its victims, leaves what fits unless a removal failed,
      and takes no victim once the rest fits. */
  lemma {:induction false} EvictionFits(es: seq<Entry>, target: nat, p: Policy, removes: Entry -> bool,
                                        victims: seq<Entry>, left: seq<Entry>)
    requires Evicts(es, target, p, removes, victims, left)
    ensures multiset(es) == multiset(left) + multiset(victims) && Sum(es) == Sum(left) + Sum(victims)
    ensures Sum(left) <= target || Stuck(left, p, removes)
    ensures forall k :: 0 <= k < |victims| ==> Sum(left) + Sum(victims[k..]) > target
    decreases |victims|
  {
    hide Stuck, IsVictim, Without;
    if victims == [] {
      NoVictims(es, target, p, removes, left);
    } else {
      hide Evicts;
      var v := FirstVictim(es, target, p, removes, victims, left);
      EvictionFits(Without(es, v), target, p, removes, victims[1..], left);
      assert victims == [victims[0]] + victims[1..];
      assert Sum(victims) == victims[0].fileSize + Sum(victims[1..]);
      forall k | 0 <= k < |victims|
        ensures Sum(left) + Sum(victims[k..]) > target
      {
        if k > 0 { assert victims[1..][k - 1..] == victims[k..]; } else { assert victims[0..] == victims; }
      }
    }
  }

  lemma VictimIsWorst(es: seq<Entry>, p: Policy, v: nat)
    requires IsVictim(es, |es|, p, v)
    ensures forall e <- es :: Score(es[v], p) <= Score(e, p)
  {
  }

  /** Every victim scores no higher than every survivor. */
  lemma {:induction false} VictimsScoreLowest(es: seq<Entry>, target: nat, p: Policy, removes: Entry -> bool,
                                              victims: seq<Entry>, left: seq<Entry>)
    requires Evicts(es, target, p, removes, victims, left)
    ensures forall a <- victims, b <- left :: Score(a, p) <= Score(b, p)
    decreases |victims|
  {
    hide Score, IsVictim, Stuck;
    if victims != [] {
      var v := FirstVictim(es, target, p, removes, victims, left);
      VictimIsWorst(es, p, v);
      EvictionFits(es, target, p, removes, victims, left);
      VictimsScoreLowest(Without(es, v), target, p, removes, victims[1..], left);
      hide Evicts;
      forall b | b in left ensures b in es { assert b in multiset(es); }
      assert forall a <- victims :: a == victims[0] || a in victims[1..];
    }
  }

  /** The file size, every addition checked. */
  function FileSize(text: nat, payload: nat, trailer: nat): Option<nat> {
    if U64_MAX - FIXED < text || U64_MAX - FIXED - text < payload || U64_MAX - FIXED - text - payload < trailer
    then None else Some(FIXED + text + payload + trailer)
  }

  /** The file size with one percent of headroom, rounded up. */
  function Required(file: nat): Option<nat> {
    var slack := if file % 100 != 0 then file / 100 + 1 else file / 100;
    if U64_MAX - file < slack then None else Some(file + slack)
  }

  predicate Fits(budget: nat, text: nat, payload: nat, trailer: nat) {
    var file := FileSize(text, payload, trailer);
    && file.Some?
    && (budget == 0 || (Required(file.value).Some? && Required(file.value).value <= budget))
  }

  /** The checks are exact: a file passes when its true size has 64 bits and 101 percent
      of it is within the budget, if there is one. */
  lemma FitsExactly(budget: nat, text: nat, payload: nat, trailer: nat)
    requires budget <= U64_MAX
    ensures var file := 52 + text + payload + trailer;
      Fits(budget, text, payload, trailer) <==> file <= U64_MAX && (budget != 0 ==> 101 * file <= 100 * budget)
  {
  }

  lemma EvictsCons(es: seq<Entry>, v: nat, target: nat, p: Policy, removes: Entry -> bool,
                   victims: seq<Entry>, left: seq<Entry>)
    requires IsVictim(es, |es|, p, v) && removes(es[v]) && Sum(es) > target
    requires Evicts(Without(es, v), target, p, removes, victims, left)
    ensures Evicts(es, target, p, removes, [es[v]] + victims, left)
  {
    hide Score, Worse;
    assert ([es[v]] + victims)[1..] == victims;
  }

  lemma EvictsDone(es: seq<Entry>, target: nat, p: Policy, removes: Entry -> bool)
    requires Sum(es) <= target || Stuck(es, p, removes)
    ensures Evicts(es, target, p, removes, [], es)
  {
  }

  /** Every eviction from `now` extends one from `es` that began with `victims`. */
  ghost predicate Extends(es: seq<Entry>, target: nat, p: Policy, removes: Entry -> bool, victims: seq<Entry>, now: seq<Entry>) {
    forall rest, left :: Evicts(now, target, p, removes, rest, left) ==> Evicts(es, target, p, removes, victims + rest, left)
  }

  lemma ExtendsStep(es: seq<Entry>, target: nat, p: Policy, removes: Entry -> bool, victims: seq<Entry>, now: seq<Entry>, v: nat)
    requires Extends(es, target, p, removes, victims, now)
    requires v < |now| && IsVictim(now, |now|, p, v) && removes(now[v]) && Sum(now) > target
    ensures Extends(es, target, p, removes, victims + [now[v]], Without(now, v))
  {
    var next := Without(now, v);
    hide Evicts, IsVictim, Without;
    forall rest, left | Evicts(next, target, p, removes, rest, left)
      ensures Evicts(es, target, p, removes, victims + [now[v]] + rest, left)
    {
      EvictsCons(now, v, target, p, removes, rest, left);
      assert victims + [now[v]] + rest == victims + ([now[v]] + rest);
    }
  }

  lemma ExtendsItself(es: seq<Entry>, target: nat, p: Policy, removes: Entry -> bool)
    ensures Extends(es, target, p, removes, [], es)
  {
    forall rest: seq<Entry> ensures [] + rest == rest {}
  }

  lemma ExtendsDone(es: seq<Entry>, target: nat, p: Policy, removes: Entry -> bool, victims: seq<Entry>, now: seq<Entry>)
    requires Extends(es, target, p, removes, victims, now) && (Sum(now) <= target || Stuck(now, p, removes))
    ensures Evicts(es, target, p, removes, victims, now)
  {
    EvictsDone(now, target, p, removes);
    hide Evicts;
    assert victims + [] == victims;
  }

  /** The files left after a rename onto the new file's name. */
  function Renamed(es: seq<Entry>, e: Entry): seq<Entry> {
    if es == [] then [e]
    else if es[0].sha == e.sha then Renamed(es[1..], e)
    else [es[0]] + Renamed(es[1..], e)
  }

  lemma {:induction false} RenamedFits(es: seq<Entry>, e: Entry)
    ensures Sum(Renamed(es, e)) <= Sum(es) + e.fileSize && e in Renamed(es, e)
  {
    if es != [] { RenamedFits(es[1..], e); }
  }

  /** Of the old files, exactly those of another name stay, as often as they were there;
      the new file comes once, and nothing else has its name. */
  lemma {:induction false} RenamedKeeps(es: seq<Entry>, e: Entry, x: Entry)
    ensures multiset(Renamed(es, e))[x] == if x.sha != e.sha then multiset(es)[x] else if x == e then 1 else 0
  {
    if es != [] {
      RenamedKeeps(es[1..], e, x);
      assert es == [es[0]] + es[1..];
    }
  }

  lemma RenamedCounts(es: seq<Entry>, e: Entry)
    ensures forall x: Entry ::
      multiset(Renamed(es, e))[x] == (if x.sha != e.sha then multiset(es)[x] else if x == e then 1 else 0)
  {
    hide Renamed;
    forall x: Entry
      ensures multiset(Renamed(es, e))[x] == if x.sha != e.sha then multiset(es)[x] else if x == e then 1 else 0
    {
      RenamedKeeps(es, e, x);
    }
  }

  /** The store's directory and its in-memory table. */
  class Store {
    const enabled: bool
    const budget: nat
    var disk: seq<Entry>
    var table: seq<Entry>

    constructor (enabled: bool, budget: nat, disk: seq<Entry>)
      ensures this.enabled == enabled && this.budget == budget && this.disk == disk
    {
      this.enabled, this.budget, this.disk, table := enabled, budget, disk, [];
    }

    /** Makes room for `extra` bytes. `removes` says which unlinks succeed. */
    method Evict(extra: nat, p: Policy, removes: Entry -> bool) returns (ghost victims: seq<Entry>)
      requires Sum(disk) <= U64_MAX
      modifies this
      ensures !enabled || budget == 0 || extra > budget ==> disk == old(disk) && victims == []
      ensures enabled && budget != 0 && extra <= budget ==>
        Evicts(old(disk), budget - extra, p, removes, victims, disk)
    {
      victims := [];
      if !enabled || budget == 0 || extra > budget { return; }
      table := disk;
      var total := Total();
      var target := budget - extra;
      ExtendsItself(disk, target, p, removes);
      hide Evicts, Extends, IsVictim;
      while total > target && table != []
        invariant Sum(disk) <= U64_MAX
        invariant Extends(old(disk), target, p, removes, victims, disk)
        invariant (total == Sum(disk) && table == disk) || (total == 0 && Stuck(disk, p, removes))
        decreases |table|
      {
        var v := FindVictim(table, p);
        assert v < |table| by { VictimInRange(table, p, v); }
        SumWithout(disk, v);
        if removes(table[v]) {
          ExtendsStep(old(disk), target, p, removes, victims, disk, v);
          victims := victims + [disk[v]];
          disk := Without(disk, v);
          total := if total >= table[v].fileSize then total - table[v].fileSize else 0;
        } else {
          total := 0;
        }
        table := Without(table, v);
      }
      ExtendsDone(old(disk), target, p, removes, victims, disk);
    }

    method Total() returns (total: nat)
      ensures total == Sum(table)
    {
      total := 0;
      for i := 0 to |table|
        invariant total + Sum(table[i..]) == Sum(table)
      {
        total := total + table[i].fileSize;
      }
    }

    /** Stores a checkpoint: size check on the estimate, eviction, write, size check on the
        real trailer, rename. `e` is the finished file. */
    method StoreFile(e: Entry, payload: nat, trailerEst: nat, trailer: nat, p: Policy, removes: Entry -> bool,
                     written: bool, renamed: bool) returns (ok: bool, ghost victims: seq<Entry>, ghost left: seq<Entry>)
      requires enabled && budget <= U64_MAX && Sum(disk) <= U64_MAX
      requires e.fileSize == FIXED + e.textBytes + payload + trailer
      modifies this
      ensures ok <==> written && renamed && Fits(budget, e.textBytes, payload, trailerEst)
                      && Fits(budget, e.textBytes, payload, trailer)
      ensures disk == if ok then Renamed(left, e) else left
      ensures ok ==> e in disk
      ensures ok ==> forall x: Entry ::
        multiset(disk)[x] == (if x.sha != e.sha then multiset(left)[x] else if x == e then 1 else 0)
      ensures budget == 0 || !Fits(budget, e.textBytes, payload, trailerEst) ==> left == old(disk) && victims == []
      ensures budget != 0 && Fits(budget, e.textBytes, payload, trailerEst) ==>
        var estimate := FIXED + e.textBytes + payload + trailerEst;
        estimate <= budget && Evicts(old(disk), budget - estimate, p, removes, victims, left)
      ensures ok && budget != 0 && trailer <= trailerEst && (forall x <- old(disk) :: removes(x)) ==>
        Sum(disk) <= budget
    {
      hide Evicts, IsVictim;
      left, victims := disk, [];
      if !Fits(budget, e.textBytes, payload, trailerEst) { return false, victims, left; }
      FitsExactly(budget, e.textBytes, payload, trailerEst);
      var estimate := FileSize(e.textBytes, payload, trailerEst).value;
      victims := Evict(estimate, p, removes);
      left := disk;
      if !written || !Fits(budget, e.textBytes, payload, trailer) || !renamed { return false, victims, left; }
      if budget != 0 {
        EvictionFits(old(disk), budget - estimate, p, removes, victims, left);
        SurvivorsRemove(old(disk), p, removes, victims, left);
      }
      RenamedFits(disk, e);
      RenamedCounts(disk, e);
      hide Renamed, Stuck;
      disk := Renamed(disk, e);
      ok := true;
    }
  }

  lemma VictimInRange(es: seq<Entry>, p: Policy, v: nat)
    requires IsVictim(es, |es|, p, v)
    ensures v < |es|
  {
  }

  /** If every file can be removed, no eviction gets stuck. */
  lemma SurvivorsRemove(es: seq<Entry>, p: Policy, removes: Entry -> bool, victims: seq<Entry>, left: seq<Entry>)
    requires multiset(es) == multiset(left) + multiset(victims)
    ensures (forall x <- es :: removes(x)) ==> !Stuck(left, p, removes)
  {
    hide Worse;
    forall x | x in left ensures x in es { assert x in multiset(es); }
  }
}
