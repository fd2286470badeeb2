/** A message that arrives in pieces. */
module Chunks {

  function Concat<T>(chunks: seq<seq<T>>): seq<T> {
    if chunks == [] then [] else Concat(chunks[..|chunks| - 1]) + chunks[|chunks| - 1]
  }

  lemma ConcatOne<T>(p: seq<T>)
    ensures Concat([p]) == p
  {
    assert [p][..0] == [];
    assert Concat([p]) == Concat([]) + p;
  }

  lemma ConcatStep<T>(chunks: seq<seq<T>>, i: nat)
    requires i <= |chunks|
    ensures Concat(chunks[..0]) == []
    ensures i < |chunks| ==> Concat(chunks[..i + 1]) == Concat(chunks[..i]) + chunks[i]
  {
    if i < |chunks| { assert chunks[..i + 1][..i] == chunks[..i]; }
  }
}
