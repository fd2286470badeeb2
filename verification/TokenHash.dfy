/** The token-prefix hash that guards every worker's KV timeline: FNV-1a over the
    four little-endian bytes of each token id, in 64-bit wrap-around arithmetic. */
module TokenHash {

  /** A token id, as the unsigned 32-bit word the hash and the wire see. */
  type Token = bv32
  type Hash = bv64

  const INIT: Hash := 1469598103934665603
  const PRIME: Hash := 1099511628211
  const TOKEN_BYTES: nat := 4

  /** One FNV-1a step. */
  function Mix(h: Hash, b: bv32): Hash { (h ^ (b as bv64)) * PRIME }

  /** Mixes in the low `n` bytes of `t`, lowest first. */
  function MixBytes(h: Hash, t: Token, n: nat): Hash
    decreases n
  {
    if n == 0 then h else MixBytes(Mix(h, t & 0xff), t >> 8, n - 1)
  }

  function Update(h: Hash, t: Token): Hash { MixBytes(h, t, TOKEN_BYTES) }

  /** Four rounds, from the lowest byte up. */
  lemma UpdateIsFour(h: Hash, t: Token)
    ensures Update(h, t) == Mix(Mix(Mix(Mix(h, t & 0xff), (t >> 8) & 0xff), (t >> 16) & 0xff), t >> 24)
  {
    hide Mix;
    Shifts(t);
    var h1 := Mix(h, t & 0xff);
    var h2 := Mix(h1, (t >> 8) & 0xff);
    var h3 := Mix(h2, (t >> 16) & 0xff);
    assert MixBytes(h, t, 4) == MixBytes(h1, t >> 8, 3) == MixBytes(h2, t >> 16, 2) == MixBytes(h3, t >> 24, 1);
    assert MixBytes(h3, t >> 24, 1) == Mix(h3, (t >> 24) & 0xff);
  }

  /** A round is FNV-1a's: the byte first, then the prime, modulo 2^64. */
  lemma RoundIsFnv(h: Hash, b: bv32)
    ensures INIT == 0x1465_0fb0_739d_0383 && PRIME == 0x100_0000_01b3 && Mix(h, b) == (h ^ (b as bv64)) * PRIME
  {
  }

  lemma Shifts(t: Token)
    ensures (t >> 8) >> 8 == t >> 16 && (t >> 16) >> 8 == t >> 24 && (t >> 24) & 0xff == t >> 24
  {
  }

  /** The hash of a span that follows a prefix of hash `h`. */
  function Span(h: Hash, tokens: seq<Token>): Hash {
    if tokens == [] then h
    else Update(Span(h, tokens[..|tokens| - 1]), tokens[|tokens| - 1])
  }

  function Prefix(tokens: seq<Token>): Hash { Span(INIT, tokens) }

  method UpdateToken(h: Hash, token: Token) returns (r: Hash)
    ensures r == Update(h, token)
  {
    r := h;
    var t := token;
    for i := 0 to TOKEN_BYTES
      invariant MixBytes(r, t, TOKEN_BYTES - i) == Update(h, token)
    {
      r, t := Mix(r, t & 0xff), t >> 8;
    }
  }

  method UpdateSpan(h: Hash, tokens: seq<Token>) returns (r: Hash)
    ensures r == Span(h, tokens)
  {
    r := h;
    for i := 0 to |tokens|
      invariant r == Span(h, tokens[..i])
    {
      assert tokens[..i + 1][..i] == tokens[..i];
      r := UpdateToken(r, tokens[i]);
    }
    assert tokens[..|tokens|] == tokens;
  }

  /** Hashing composes over concatenation, which is what lets a worker check one
      span at a time against a hash of the whole prefix. */
  lemma {:induction false} SpanConcat(h: Hash, a: seq<Token>, b: seq<Token>)
    ensures Span(h, a + b) == Span(Span(h, a), b)
  {
    if b == [] {
      assert a + b == a;
    } else {
      var n := |b| - 1;
      assert (a + b)[..|a + b| - 1] == a + b[..n];
      SpanConcat(h, a, b[..n]);
    }
  }
}
