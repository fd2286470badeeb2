/** Products kept opaque to the solver, and set sizes. */
module Arithmetic {

  function Min(a: nat, b: nat): nat { if a < b then a else b }

  function Times(a: nat, b: nat): nat { a * b }

  lemma TimesStep(a: nat, m: nat)
    ensures Times(a + 1, m) == Times(a, m) + m && Times(0, m) == 0
  {
    assert (a + 1) * m == a * m + m;
  }

  lemma TimesAdds(a: nat, b: nat, m: nat)
    ensures Times(a + b, m) == Times(a, m) + Times(b, m)
  {
  }

  lemma {:induction false} TimesRises(a: nat, b: nat, m: nat)
    requires a <= b
    ensures Times(a, m) <= Times(b, m)
    ensures a < b ==> Times(a, m) + m <= Times(b, m)
    decreases b
  {
    if a < b {
      TimesStep(b - 1, m);
      TimesRises(a, b - 1, m);
    }
  }

  lemma SubsetIsSmaller<T>(a: set<T>, b: set<T>)
    requires a <= b
    ensures |a| <= |b|
  {
    assert b == a + (b - a) && a * (b - a) == {};
  }
}
