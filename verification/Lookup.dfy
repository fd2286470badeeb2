/** Finding the checkpoint to restore for a prompt: the longest stored text that the
    prompt starts with, or failing that the one sharing the longest prefix with it. */
module Lookup {
  import opened Arithmetic
  import Bytes
  import opened Chunks
  import opened Sha1
  import opened KvEntry

  /** A lookup request and the store's settings; `model`, `quantBits` and `ctx` are the
      caller's signed integers. */
  datatype Request = Request(prompt: seq<U8>, model: int, quantBits: int, ctx: int, requireSuffix: bool,
                             identityMask: U8, identityFlags: U8, minTokens: int, rejectDifferentQuant: bool)

  /** A 32-bit word read as a signed integer. */
  function Signed(v: Bytes.U32): int { if v < 0x8000_0000 then v else v - 0x1_0000_0000 }

  /** The filters that both lookups share. */
  predicate Usable(q: Request, e: Entry) {
    && AutomaticReplay(e)
    && e.ext & q.identityMask == q.identityFlags & q.identityMask
    && q.minTokens <= Signed(e.tokens)
    && e.model == q.model % 0x100
    && e.ctx <= q.ctx % 0x1_0000_0000
    && (q.rejectDifferentQuant ==> e.quantBits == q.quantBits % 0x100)
  }

  /** A usable entry whose text is no longer than the prompt, and shorter where a suffix
      is needed. */
  predicate Eligible(q: Request, e: Entry) {
    && Usable(q, e) && e.textBytes <= |q.prompt|
    && ((q.requireSuffix || BankReplay(e)) ==> e.textBytes < |q.prompt|)
  }

  /** An eligible entry named by the hash of that much of the prompt. */
  ghost predicate Matching(q: Request, e: Entry) {
    Eligible(q, e) && IsDigest(q.prompt[..e.textBytes], e.sha)
  }

  /** Longer text first, then more tokens. */
  predicate Deeper(a: Entry, b: Entry) {
    a.textBytes > b.textBytes || (a.textBytes == b.textBytes && a.tokens > b.tokens)
  }

  /** `best` is the first of the deepest matching entries among the first `n`. */
  ghost predicate IsDeepest(q: Request, es: seq<Entry>, n: nat, best: int)
    requires n <= |es|
  {
    if best < 0 then forall i :: 0 <= i < n ==> !Matching(q, es[i])
    else
      && best < n && Matching(q, es[best])
      && (forall i :: 0 <= i < n && Matching(q, es[i]) ==> !Deeper(es[i], es[best]))
      && (forall i :: 0 <= i < best && Matching(q, es[i]) ==> Deeper(es[best], es[i]))
  }

  /** Which checkpoints may be restored at all: a bank's record is marked as one by bit 4
      of its flags and a serial one is not; flags under the mask, model, context and
      quantization are the caller's. */
  lemma UsableExactly(q: Request, e: Entry)
    ensures Usable(q, e) <==>
      && e.reason !in {Unknown, AgentSystem, AgentSession}
      && ((e.ext >> 4) & 1 == 1 <==> e.reason in {BankEvict, BankShutdown, BankCheckpoint})
      && (e.ext ^ q.identityFlags) & q.identityMask == 0
      && q.minTokens <= (if e.tokens >= 2147483648 then e.tokens - 4294967296 else e.tokens)
      && e.model == q.model % 256 && e.ctx <= q.ctx % 4294967296
      && (!q.rejectDifferentQuant || e.quantBits == q.quantBits % 256)
  {
    hide AutomaticReplay;
    Replays(e);
    SameUnderMask(e.ext, q.identityFlags, q.identityMask);
  }

  /** And which an exact lookup may: the prompt starts with the text they are named after
      and, where the caller asks for it or they are a bank's and lack the frontier's
      logits, goes on. */
  lemma MatchesExactly(q: Request, e: Entry)
    ensures Matching(q, e) <==>
      && Usable(q, e)
      && exists t, rest :: t + rest == q.prompt && |t| == e.textBytes && IsDigest(t, e.sha)
           && (q.requireSuffix || e.reason in {BankEvict, BankShutdown, BankCheckpoint} ==> rest != [])
  {
    if Usable(q, e) { UsableReplay(q, e); }
    PromptGoesOn(q.prompt, e, q.requireSuffix || e.reason in {BankEvict, BankShutdown, BankCheckpoint});
    hide IsDigest, Usable, BankReplay;
  }

  lemma UsableReplay(q: Request, e: Entry)
    requires Usable(q, e)
    ensures BankReplay(e) <==> e.reason in {BankEvict, BankShutdown, BankCheckpoint}
  {
  }

  lemma PromptGoesOn(prompt: seq<U8>, e: Entry, suffix: bool)
    ensures (exists t, rest :: t + rest == prompt && |t| == e.textBytes && IsDigest(t, e.sha) && (suffix ==> rest != []))
      <==> e.textBytes <= |prompt| && (suffix ==> e.textBytes < |prompt|) && IsDigest(prompt[..e.textBytes], e.sha)
  {
    hide IsDigest;
    if e.textBytes <= |prompt| {
      assert prompt[..e.textBytes] + prompt[e.textBytes..] == prompt;
    }
    forall t, rest | t + rest == prompt && |t| == e.textBytes
      ensures t == prompt[..e.textBytes] && (rest != [] <==> e.textBytes < |prompt|)
    {
      assert (t + rest)[..|t|] == t;
    }
  }

  lemma Replays(e: Entry)
    ensures BankReplay(e) <==> e.reason in {BankEvict, BankShutdown, BankCheckpoint} && (e.ext >> 4) & 1 == 1
    ensures AutomaticReplay(e) <==>
      && e.reason !in {Unknown, AgentSystem, AgentSession}
      && ((e.ext >> 4) & 1 == 1 <==> e.reason in {BankEvict, BankShutdown, BankCheckpoint})
  {
    match e.reason
    case Unknown | AgentSystem | AgentSession =>
    case _ =>
  }

  lemma SameUnderMask(a: U8, b: U8, mask: U8)
    ensures a & mask == b & mask <==> (a ^ b) & mask == 0
  {
  }

  method FindPrefix(q: Request, es: seq<Entry>) returns (best: int)
    ensures IsDeepest(q, es, |es|, best)
    ensures best < 0 <==> forall e <- es :: !Matching(q, e)
    ensures best >= 0 ==> best < |es| && forall i :: 0 <= i < |es| && i != best && Matching(q, es[i]) ==>
      var e, b := es[i], es[best];
      || e.textBytes < b.textBytes || (e.textBytes == b.textBytes && e.tokens < b.tokens)
      || (e.textBytes == b.textBytes && e.tokens == b.tokens && best < i)
  {
    hide IsDigest, Usable;
    best := -1;
    for i := 0 to |es|
      invariant IsDeepest(q, es, i, best)
    {
      var e := es[i];
      if !Eligible(q, e) { continue; }
      if best >= 0 && !Deeper(e, es[best]) { continue; }
      var sha := HashChunks([q.prompt[..e.textBytes]]);
      ConcatOne(q.prompt[..e.textBytes]);
      if IsDigest(q.prompt[..e.textBytes], e.sha) { DigestIsUnique(q.prompt[..e.textBytes], sha, e.sha); }
      if sha == e.sha { best := i; }
    }
  }

  /** The answer is unique: equally deep entries are told apart by their position. */
  lemma DeepestIsUnique(q: Request, es: seq<Entry>, a: int, b: int)
    requires IsDeepest(q, es, |es|, a) && IsDeepest(q, es, |es|, b)
    ensures a == b || (a < 0 && b < 0)
  {
    hide Matching;
  }

  /** The length of the longest common prefix. */
  ghost predicate IsCommonPrefix(a: seq<U8>, b: seq<U8>, n: nat) {
    n <= |a| && n <= |b| && a[..n] == b[..n] && (n < |a| && n < |b| ==> a[n] != b[n])
  }

  /** The entry's text, as far as its file holds it. */
  function TextOf(e: Entry): seq<U8> { if e.readable then e.stored[..Min(e.textBytes, |e.stored|)] else [] }

  /** An entry worth restoring for its `lcp` bytes in common with the prompt. */
  ghost predicate Salvageable(q: Request, e: Entry, minLcp: nat, lcp: nat) {
    Usable(q, e) && IsCommonPrefix(TextOf(e), q.prompt, lcp) && minLcp <= lcp && e.textBytes <= 8 * lcp
  }

  /** `best` is the first entry with the longest common prefix and the smallest text,
      found without any pruning. */
  ghost predicate IsLongest(q: Request, es: seq<Entry>, n: nat, minLcp: nat, best: int, lcp: nat)
    requires n <= |es|
  {
    if best < 0 then lcp == 0 && forall i: nat, k: nat :: i < n ==> !Salvageable(q, es[i], minLcp, k)
    else
      && best < n && Salvageable(q, es[best], minLcp, lcp)
      && (forall i: nat, k: nat :: i < n && Salvageable(q, es[i], minLcp, k) ==>
            k < lcp || (k == lcp && es[best].textBytes <= es[i].textBytes))
      && (forall i: nat, k: nat :: i < best && Salvageable(q, es[i], minLcp, k) ==>
            k < lcp || es[best].textBytes < es[i].textBytes)
  }

  /** The length filters that run before a file is opened discard nothing salvageable. */
  lemma FiltersAreSound(q: Request, e: Entry, minLcp: nat, lcp: nat)
    requires Salvageable(q, e, minLcp, lcp)
    ensures minLcp <= e.textBytes <= 8 * |q.prompt|
  {
  }

  lemma CommonPrefixIsUnique(a: seq<U8>, b: seq<U8>, m: nat, n: nat)
    requires IsCommonPrefix(a, b, m) && IsCommonPrefix(a, b, n)
    ensures m == n
  {
    forall i: nat | i < n ensures a[i] == b[i] { assert a[..n][i] == b[..n][i]; }
    forall i: nat | i < m ensures a[i] == b[i] { assert a[..m][i] == b[..m][i]; }
  }

  /** Reads no more of the file than either text can match. */
  method CommonPrefix(e: Entry, prompt: seq<U8>) returns (lcp: nat)
    ensures IsCommonPrefix(TextOf(e), prompt, lcp)
  {
    var want := Min(e.textBytes, |prompt|);
    lcp := 0;
    if e.readable {
      var buf := e.stored[..Min(want, |e.stored|)];
      while lcp < |buf| && buf[lcp] == prompt[lcp]
        invariant lcp <= |buf| <= |prompt| && buf[..lcp] == prompt[..lcp]
      {
        lcp := lcp + 1;
      }
      assert TextOf(e)[..lcp] == buf[..lcp];
    }
  }

  method FindLcp(q: Request, es: seq<Entry>, minLcp: nat) returns (best: int, lcp: nat)
    ensures minLcp == 0 ==> best < 0 && lcp == 0
    ensures minLcp > 0 ==> IsLongest(q, es, |es|, minLcp, best, lcp)
  {
    hide Usable, IsCommonPrefix, TextOf;
    best, lcp := -1, 0;
    if minLcp == 0 { return; }
    if |q.prompt| < minLcp {
      PromptTooShort(q, es, minLcp);
      return;
    }
    var bestText := 0;
    for i := 0 to |es|
      invariant IsLongest(q, es, i, minLcp, best, lcp)
      invariant best >= 0 ==> bestText == es[best].textBytes
    {
      var e := es[i];
      forall k: nat | Salvageable(q, e, minLcp, k) ensures minLcp <= e.textBytes <= 8 * |q.prompt| {
        FiltersAreSound(q, e, minLcp, k);
      }
      if !Usable(q, e) || e.textBytes < minLcp || e.textBytes > 8 * |q.prompt| { continue; }
      var n := CommonPrefix(e, q.prompt);
      forall k: nat | Salvageable(q, e, minLcp, k) ensures k == n { CommonPrefixIsUnique(TextOf(e), q.prompt, k, n); }
      if n < minLcp || 8 * n < e.textBytes { continue; }
      if n < lcp { continue; }
      if n == lcp && best >= 0 && e.textBytes >= bestText { continue; }
      best, lcp, bestText := i, n, e.textBytes;
    }
  }

  lemma PromptTooShort(q: Request, es: seq<Entry>, minLcp: nat)
    requires |q.prompt| < minLcp
    ensures forall i: nat, k: nat :: i < |es| ==> !Salvageable(q, es[i], minLcp, k)
  {
  }

  lemma LongestIsUnique(q: Request, es: seq<Entry>, minLcp: nat, a: int, la: nat, b: int, lb: nat)
    requires IsLongest(q, es, |es|, minLcp, a, la) && IsLongest(q, es, |es|, minLcp, b, lb)
    ensures (a == b || (a < 0 && b < 0)) && la == lb
  {
    hide Salvageable;
  }
}
