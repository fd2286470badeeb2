/** Remainders of natural numbers, as ring buffers use them. */
module Modular {

  function Mod(a: nat, n: nat): (r: nat)
    requires n > 0
    ensures r < n
  {
    a % n
  }

  lemma MultipleIsFar(d: int, n: int)
    requires n > 0
    ensures d >= 1 ==> d * n >= n
    ensures d <= -1 ==> d * n <= -n
  {
  }

  lemma ModUnique(a: nat, n: nat, q: int, r: nat)
    requires a == q * n + r && r < n
    ensures Mod(a, n) == r
  {
    var d := a / n - q;
    assert d * n == r - a % n;
    MultipleIsFar(d, n);
  }

  /** Moving on by less than a lap. */
  lemma ModAdd(p: nat, delta: nat, n: nat)
    requires delta <= n && n > 0
    ensures Mod(p + delta, n) == if Mod(p, n) + delta < n then Mod(p, n) + delta else Mod(p, n) + delta - n
  {
    var q, r := p / n, p % n;
    assert p == q * n + r;
    if r + delta < n {
      ModUnique(p + delta, n, q, r + delta);
    } else {
      assert p + delta == (q + 1) * n + (r + delta - n);
      ModUnique(p + delta, n, q + 1, r + delta - n);
    }
  }

  lemma ModApart(p: nat, q: nat, n: nat)
    requires p < q < p + n
    ensures Mod(p, n) != Mod(q, n)
  {
    ModAdd(p, q - p, n);
  }

  lemma ModSmall(p: nat, n: nat)
    requires p < n
    ensures Mod(p, n) == p
  {
  }
}
