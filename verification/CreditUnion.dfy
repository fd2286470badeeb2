/** The admission projection's page count: one pass over the banks merges their credited
    spans, rounded to whole pages, into runs, and charges each run once. */
module CreditUnion {
  import opened Arithmetic

  datatype Geometry = Geometry(stride: nat, rowBytes: nat, capRows: nat, ratio: nat, page: nat)

  datatype Run = Run(p0: nat, p1: nat)

  /** The credited lengths once the candidate's replaces its own. */
  function Lengths(credit: seq<nat>, cand: nat, candLen: nat): seq<nat> {
    if cand < |credit| then credit[cand := candLen] else credit
  }

  function Rows(g: Geometry, length: nat): nat
    requires g.ratio > 0
  {
    if length == 0 then 0
    else if length / g.ratio + 2 > g.capRows then g.capRows else length / g.ratio + 2
  }

  function Page(g: Geometry, x: nat): nat
    requires g.page > 0
  {
    x / g.page
  }

  /** Byte `x` lies in the credited span of bank `b`. */
  ghost predicate Credited(g: Geometry, lengths: seq<nat>, b: nat, x: nat)
    requires g.ratio > 0
  {
    b < |lengths| && Times(b, g.stride) <= x < Times(b, g.stride) + Times(Rows(g, lengths[b]), g.rowBytes)
  }

  /** Some credited byte lies in page `q`. */
  ghost predicate Touched(g: Geometry, lengths: seq<nat>, q: nat)
    requires g.ratio > 0 && g.page > 0
  {
    exists b, x :: Credited(g, lengths, b, x) && Page(g, x) == q
  }

  predicate In(r: Run, q: nat) { r.p0 <= q <= r.p1 }

  /** Ascending runs with at least nothing in common. */
  ghost predicate Separate(runs: seq<Run>) {
    && (forall i :: 0 <= i < |runs| ==> runs[i].p0 <= runs[i].p1)
    && (forall i, j :: 0 <= i < j < |runs| ==> runs[i].p1 < runs[j].p0)
  }

  ghost predicate InSome(runs: seq<Run>, q: nat) { exists i :: 0 <= i < |runs| && In(runs[i], q) }

  function Width(r: Run): nat { if r.p0 <= r.p1 then r.p1 - r.p0 + 1 else 0 }

  function Charge(r: Run, page: nat, runNeed: (nat, nat) -> nat): nat {
    runNeed(Times(r.p0, page), Times(Width(r), page))
  }

  function Charges(runs: seq<Run>, page: nat, runNeed: (nat, nat) -> nat): nat {
    if runs == [] then 0
    else Charges(runs[..|runs| - 1], page, runNeed) + Charge(runs[|runs| - 1], page, runNeed)
  }

  /** The pages from a bank's first credited byte's through its last one's. */
  function BankRun(g: Geometry, b: nat, rows: nat): (r: Run)
    requires g.page > 0 && g.rowBytes > 0 && rows > 0
  {
    AtLeastOne(rows, g.rowBytes);
    Run(Page(g, Times(b, g.stride)), Page(g, Times(b, g.stride) + Times(rows, g.rowBytes) - 1))
  }

  lemma AtLeastOne(a: nat, b: nat)
    requires a > 0 && b > 0
    ensures Times(a, b) > 0
  {
  }

  lemma PageBounds(g: Geometry, x: nat)
    requires g.page > 0
    ensures Times(Page(g, x), g.page) <= x < Times(Page(g, x), g.page) + g.page
  {
  }

  lemma PageIs(g: Geometry, x: nat, q: nat)
    requires g.page > 0 && Times(q, g.page) <= x < Times(q, g.page) + g.page
    ensures Page(g, x) == q
  {
    hide Page, Times;
    PageBounds(g, x);
    if q < Page(g, x) { TimesRises(q, Page(g, x), g.page); }
    if Page(g, x) < q { TimesRises(Page(g, x), q, g.page); }
  }

  lemma PagesRise(g: Geometry, x: nat, y: nat)
    requires g.page > 0 && x <= y
    ensures Page(g, x) <= Page(g, y)
  {
    hide Page, Times;
    PageBounds(g, x);
    PageBounds(g, y);
    if Page(g, y) < Page(g, x) { TimesRises(Page(g, y), Page(g, x), g.page); }
  }

  lemma OffsetsRise(g: Geometry, a: nat, b: nat)
    requires a <= b
    ensures Times(a, g.stride) <= Times(b, g.stride)
  {
    assert b * g.stride == a * g.stride + (b - a) * g.stride;
  }

  /** Every page between those of two bytes holds a byte between them. */
  lemma ByteInPage(g: Geometry, x: nat, y: nat, q: nat) returns (z: nat)
    requires g.page > 0 && x <= y && Page(g, x) <= q <= Page(g, y)
    ensures x <= z <= y && Page(g, z) == q
  {
    hide Page, Times;
    z := if Page(g, x) == q then x else Times(q, g.page);
    PageBounds(g, x);
    PageBounds(g, y);
    TimesRises(Page(g, x), q, g.page);
    TimesRises(q, Page(g, y), g.page);
    if z != x { PageIs(g, z, q); }
  }

  /** A bank's run is exactly the pages its credited bytes lie in. */
  lemma BankRunIsTouched(g: Geometry, lengths: seq<nat>, b: nat, q: nat)
    requires g.page > 0 && g.ratio > 0 && g.rowBytes > 0 && b < |lengths|
    ensures var rows := Rows(g, lengths[b]);
      (exists x :: Credited(g, lengths, b, x) && Page(g, x) == q) <==> rows > 0 && In(BankRun(g, b, rows), q)
  {
    hide Page, Rows, Times;
    var rows := Rows(g, lengths[b]);
    if rows > 0 {
      AtLeastOne(rows, g.rowBytes);
      var first := Times(b, g.stride);
      var last := first + Times(rows, g.rowBytes) - 1;
      forall x | first <= x <= last ensures In(BankRun(g, b, rows), Page(g, x)) {
        PagesRise(g, first, x);
        PagesRise(g, x, last);
      }
      PagesRise(g, first, last);
      if In(BankRun(g, b, rows), q) {
        var z := ByteInPage(g, first, last, q);
        assert Credited(g, lengths, b, z);
      }
    } else {
      NoRows(g);
    }
  }

  lemma NoRows(g: Geometry)
    ensures Times(0, g.rowBytes) == 0
  {
  }

  /** The runs so far, the open one last, cover the pages of the first `n` banks. */
  ghost predicate Covered(g: Geometry, lengths: seq<nat>, n: nat, runs: seq<Run>)
    requires g.page > 0 && g.ratio > 0 && n <= |lengths|
  {
    forall q :: Touched(g, lengths[..n], q) <==> InSome(runs, q)
  }

  /** The state after `n` banks: no page of a later bank comes before the open run. */
  ghost predicate Merged(g: Geometry, lengths: seq<nat>, n: nat, runs: seq<Run>)
    requires g.page > 0 && g.ratio > 0 && n <= |lengths|
  {
    && Separate(runs) && Covered(g, lengths, n, runs)
    && (runs != [] ==> n > 0 && runs[|runs| - 1].p0 <= Page(g, Times(n - 1, g.stride)))
  }

  lemma TouchedByOneMore(g: Geometry, lengths: seq<nat>, n: nat, q: nat)
    requires g.page > 0 && g.ratio > 0 && g.rowBytes > 0 && n < |lengths|
    ensures var rows := Rows(g, lengths[n]);
      Touched(g, lengths[..n + 1], q) <==> Touched(g, lengths[..n], q) || (rows > 0 && In(BankRun(g, n, rows), q))
  {
    hide Rows, Page, Times, BankRun;
    var old', new' := lengths[..n], lengths[..n + 1];
    BankRunIsTouched(g, new', n, q);
    assert forall b: nat, x: nat :: b < n ==> (Credited(g, old', b, x) <==> Credited(g, new', b, x));
  }

  /** Merging the next bank into the open run or opening a new one. */
  function Merge(runs: seq<Run>, r: Run): seq<Run> {
    var n := |runs| - 1;
    if n >= 0 && r.p0 <= runs[n].p1 then runs[..n] + [runs[n].(p1 := if r.p1 > runs[n].p1 then r.p1 else runs[n].p1)]
    else runs + [r]
  }

  lemma MergeForms(closed: seq<Run>, o: Run, r: Run)
    ensures Merge([], r) == [] + [r]
    ensures r.p0 <= o.p1 ==> Merge(closed + [o], r) == closed + [Run(o.p0, if r.p1 > o.p1 then r.p1 else o.p1)]
    ensures r.p0 > o.p1 ==> Merge(closed + [o], r) == closed + [o] + [r]
  {
    assert (closed + [o])[..|closed|] == closed;
  }

  lemma MergeIsUnion(runs: seq<Run>, r: Run)
    requires Separate(runs) && r.p0 <= r.p1 && (runs != [] ==> runs[|runs| - 1].p0 <= r.p0)
    ensures Separate(Merge(runs, r))
    ensures forall q :: InSome(Merge(runs, r), q) <==> InSome(runs, q) || In(r, q)
  {
    var merged, n := Merge(runs, r), |runs| - 1;
    forall q | InSome(runs, q) || In(r, q) ensures InSome(merged, q) {
      if i :| 0 <= i < |runs| && In(runs[i], q) {
        assert In(merged[i], q);
      } else {
        assert In(merged[|merged| - 1], q);
      }
    }
    forall q | InSome(merged, q) ensures InSome(runs, q) || In(r, q) {
      var i :| 0 <= i < |merged| && In(merged[i], q);
      if i < |runs| { assert In(runs[i], q) || In(r, q); }
    }
  }

  lemma MergeStep(g: Geometry, lengths: seq<nat>, n: nat, runs: seq<Run>)
    requires g.page > 0 && g.ratio > 0 && g.rowBytes > 0 && n < |lengths| && Merged(g, lengths, n, runs)
    ensures Rows(g, lengths[n]) == 0 ==> Merged(g, lengths, n + 1, runs)
    ensures Rows(g, lengths[n]) > 0 ==>
      var r := BankRun(g, n, Rows(g, lengths[n]));
      Merged(g, lengths, n + 1, Merge(runs, r)) && r.p0 <= r.p1
  {
    var rows := Rows(g, lengths[n]);
    forall q { TouchedByOneMore(g, lengths, n, q); }
    if runs != [] {
      OffsetsRise(g, n - 1, n);
      PagesRise(g, Times(n - 1, g.stride), Times(n, g.stride));
    }
    if rows > 0 {
      AtLeastOne(rows, g.rowBytes);
      PagesRise(g, Times(n, g.stride), Times(n, g.stride) + Times(rows, g.rowBytes) - 1);
      hide Rows, Page, Times, Touched;
      MergeIsUnion(runs, BankRun(g, n, rows));
    }
  }

  /** The runs of a list of credited lengths, bank by bank. */
  function RunsOf(g: Geometry, lengths: seq<nat>): seq<Run>
    requires g.page > 0 && g.ratio > 0 && g.rowBytes > 0
  {
    if lengths == [] then []
    else
      var n := |lengths| - 1;
      var runs, rows := RunsOf(g, lengths[..n]), Rows(g, lengths[n]);
      if rows == 0 then runs else Merge(runs, BankRun(g, n, rows))
  }

  /** They are disjoint and cover exactly the touched pages. */
  lemma {:induction false} RunsAreTheUnion(g: Geometry, lengths: seq<nat>)
    requires g.page > 0 && g.ratio > 0 && g.rowBytes > 0
    ensures Separate(RunsOf(g, lengths)) && Covered(g, lengths, |lengths|, RunsOf(g, lengths))
  {
    MergedRuns(g, lengths, |lengths|);
    assert lengths[..|lengths|] == lengths;
  }

  lemma {:induction false} MergedRuns(g: Geometry, lengths: seq<nat>, n: nat)
    requires g.page > 0 && g.ratio > 0 && g.rowBytes > 0 && n <= |lengths|
    ensures Merged(g, lengths, n, RunsOf(g, lengths[..n]))
  {
    hide Merged, Merge, BankRun, Rows;
    if n == 0 {
      NothingMerged(g, lengths);
    } else {
      MergedRuns(g, lengths, n - 1);
      assert lengths[..n][..n - 1] == lengths[..n - 1];
      MergeStep(g, lengths, n - 1, RunsOf(g, lengths[..n - 1]));
    }
  }

  lemma RunsStep(g: Geometry, lengths: seq<nat>, n: nat)
    requires g.page > 0 && g.ratio > 0 && g.rowBytes > 0 && n < |lengths|
    ensures RunsOf(g, lengths[..0]) == []
    ensures RunsOf(g, lengths[..n + 1]) == if Rows(g, lengths[n]) == 0 then RunsOf(g, lengths[..n])
                                          else Merge(RunsOf(g, lengths[..n]), BankRun(g, n, Rows(g, lengths[n])))
    ensures Rows(g, lengths[n]) > 0 ==>
      var r := BankRun(g, n, Rows(g, lengths[n])); r.p0 <= r.p1
  {
    assert lengths[..n + 1][..n] == lengths[..n];
    MergedRuns(g, lengths, n);
    MergeStep(g, lengths, n, RunsOf(g, lengths[..n]));
  }

  /** The single pass: only the open run is kept, and every run is charged when it closes. */
  method ChargeRuns(g: Geometry, credit: seq<nat>, cand: nat, candLen: nat, runNeed: (nat, nat) -> nat)
    returns (need: nat)
    ensures g.page == 0 || g.ratio == 0 || g.rowBytes == 0 ==> need == 0
    ensures g.page > 0 && g.ratio > 0 && g.rowBytes > 0 ==>
      need == Charges(RunsOf(g, Lengths(credit, cand, candLen)), g.page, runNeed)
  {
    need := 0;
    if g.page == 0 || g.ratio == 0 || g.rowBytes == 0 { return; }
    ghost var lengths := Lengths(credit, cand, candLen);
    assert |lengths| == |credit| && forall b :: 0 <= b < |credit| ==> lengths[b] == if b == cand then candLen else credit[b];
    ghost var closed: seq<Run> := [];
    var p0, p1, open := 0, 0, false;
    ChargesMore([], Run(0, 0), g.page, runNeed);
    hide Page, Times, BankRun, Charges, Merge, Rows, Lengths, Charge, Width, RunsOf;
    NoRuns(g, lengths);
    for b := 0 to |credit|
      invariant RunsOf(g, lengths[..b]) == if open then closed + [Run(p0, p1)] else []
      invariant p0 <= p1 && (open || closed == [])
      invariant need == Charges(closed, g.page, runNeed)
    {
      var length := if b == cand then candLen else credit[b];
      RunsStep(g, lengths, b);
      var rows := Rows(g, length);
      if rows == 0 { continue; }
      var r := BankRun(g, b, rows);
      MergeForms(closed, Run(p0, p1), r);
      if open && r.p0 <= p1 {
        if r.p1 > p1 { p1 := r.p1; }
      } else {
        if open {
          ChargesMore(closed, Run(p0, p1), g.page, runNeed);
          need := need + Charge(Run(p0, p1), g.page, runNeed);
          closed := closed + [Run(p0, p1)];
        }
        p0, p1, open := r.p0, r.p1, true;
      }
    }
    if open {
      ChargesMore(closed, Run(p0, p1), g.page, runNeed);
      need := need + Charge(Run(p0, p1), g.page, runNeed);
    }
    assert lengths[..|lengths|] == lengths;
  }

  lemma NoRuns(g: Geometry, lengths: seq<nat>)
    requires g.page > 0 && g.ratio > 0 && g.rowBytes > 0
    ensures RunsOf(g, lengths[..0]) == []
  {
  }

  lemma ChargesMore(runs: seq<Run>, r: Run, page: nat, runNeed: (nat, nat) -> nat)
    requires r.p0 <= r.p1
    ensures Charges([], page, runNeed) == 0
    ensures Charges(runs + [r], page, runNeed)
         == Charges(runs, page, runNeed) + Charge(r, page, runNeed)
  {
    hide Times;
    assert (runs + [r])[..|runs|] == runs;
  }

  lemma NothingMerged(g: Geometry, lengths: seq<nat>)
    requires g.page > 0 && g.ratio > 0
    ensures Merged(g, lengths, 0, [])
  {
  }

  /** The pages of a run, and of several. */
  ghost function PagesOf(r: Run): set<nat> { set q: nat | r.p0 <= q <= r.p1 && In(r, q) }

  ghost function AllPages(runs: seq<Run>): (s: set<nat>)
    ensures forall q :: q in s <==> InSome(runs, q)
  {
    if runs == [] then {}
    else
      var n := |runs| - 1;
      assert forall q :: InSome(runs, q) <==> InSome(runs[..n], q) || In(runs[n], q) by { InSomeMore(runs); }
      AllPages(runs[..n]) + PagesOf(runs[n])
  }

  lemma InSomeMore(runs: seq<Run>)
    requires runs != []
    ensures forall q :: InSome(runs, q) <==> InSome(runs[..|runs| - 1], q) || In(runs[|runs| - 1], q)
  {
    var n := |runs| - 1;
    forall q | InSome(runs[..n], q) ensures InSome(runs, q) {
      var i :| 0 <= i < n && In(runs[..n][i], q);
      assert In(runs[i], q);
    }
    forall q | InSome(runs, q) ensures InSome(runs[..n], q) || In(runs[n], q) {
      var i :| 0 <= i < |runs| && In(runs[i], q);
      if i < n { assert In(runs[..n][i], q); }
    }
  }

  /** What production charges a run: its span less the resident bytes in it, floored at
      zero, where residency is counted in whole pages. */
  ghost predicate PerPage(g: Geometry, resident: set<nat>, runNeed: (nat, nat) -> nat) {
    forall p0: nat, p1: nat :: p0 <= p1 ==>
      var span, res := Times(p1 - p0 + 1, g.page), Times(|PagesOf(Run(p0, p1)) * resident|, g.page);
      runNeed(Times(p0, g.page), span) == if span > res then span - res else 0
  }

  lemma {:induction false} PageCount(r: Run)
    requires r.p0 <= r.p1
    ensures |PagesOf(r)| == r.p1 - r.p0 + 1
    decreases r.p1
  {
    if r.p0 == r.p1 {
      assert PagesOf(r) == {r.p0};
    } else {
      var less := Run(r.p0, r.p1 - 1);
      PageCount(less);
      forall q ensures q in PagesOf(r) <==> q in PagesOf(less) || q == r.p1 {
        assert In(r, q) <==> In(less, q) || q == r.p1;
      }
      assert PagesOf(r) == PagesOf(less) + {r.p1};
      assert r.p1 !in PagesOf(less);
    }
  }

  lemma Split(a: set<nat>, r: set<nat>)
    ensures |a| == |a * r| + |a - r|
  {
    assert a == (a * r) + (a - r) && (a * r) * (a - r) == {};
  }

  /** A run is charged for exactly its non-resident pages. */
  lemma ChargeIsNonResident(g: Geometry, resident: set<nat>, runNeed: (nat, nat) -> nat, r: Run)
    requires PerPage(g, resident, runNeed) && r.p0 <= r.p1
    ensures Charge(r, g.page, runNeed) == Times(|PagesOf(r) - resident|, g.page)
  {
    hide PagesOf, Times;
    PageCount(r);
    var a := PagesOf(r);
    Split(a, resident);
    TimesAdds(|a * resident|, |a - resident|, g.page);
  }

  lemma {:induction false} ChargesAreNonResident(g: Geometry, resident: set<nat>, runNeed: (nat, nat) -> nat, runs: seq<Run>)
    requires PerPage(g, resident, runNeed) && Separate(runs)
    ensures Charges(runs, g.page, runNeed) == Times(|AllPages(runs) - resident|, g.page)
  {
    hide *;
    if runs == [] {
      NoCharges(g, resident, runNeed);
    } else {
      var n := |runs| - 1;
      RunsApart(runs);
      var a, b := AllPages(runs[..n]), PagesOf(runs[n]);
      ChargesAreNonResident(g, resident, runNeed, runs[..n]);
      ChargeIsNonResident(g, resident, runNeed, runs[n]);
      assert runs == runs[..n] + [runs[n]];
      ChargesMore(runs[..n], runs[n], g.page, runNeed);
      ChargeOfBoth(g, a, b, resident);
    }
  }

  lemma NoCharges(g: Geometry, resident: set<nat>, runNeed: (nat, nat) -> nat)
    ensures Charges([], g.page, runNeed) == Times(|AllPages([]) - resident|, g.page)
  {
    assert |{} - resident| == 0;
  }

  lemma ChargeOfBoth(g: Geometry, a: set<nat>, b: set<nat>, r: set<nat>)
    requires a * b == {}
    ensures Times(|(a + b) - r|, g.page) == Times(|a - r|, g.page) + Times(|b - r|, g.page)
  {
    hide Times;
    DisjointLess(a, b, r);
    TimesAdds(|a - r|, |b - r|, g.page);
  }

  lemma DisjointLess(a: set<nat>, b: set<nat>, r: set<nat>)
    requires a * b == {}
    ensures |(a + b) - r| == |a - r| + |b - r|
  {
    assert (a + b) - r == (a - r) + (b - r) && (a - r) * (b - r) == {};
  }

  lemma RunsApart(runs: seq<Run>)
    requires runs != [] && Separate(runs)
    ensures Separate(runs[..|runs| - 1]) && runs[|runs| - 1].p0 <= runs[|runs| - 1].p1
    ensures AllPages(runs) == AllPages(runs[..|runs| - 1]) + PagesOf(runs[|runs| - 1])
    ensures AllPages(runs[..|runs| - 1]) * PagesOf(runs[|runs| - 1]) == {}
  {
    var n := |runs| - 1;
    forall q | q in AllPages(runs[..n]) ensures q !in PagesOf(runs[n]) {
      var i :| 0 <= i < n && In(runs[..n][i], q);
    }
  }

  /** The charge is the page size times the number of touched pages that are not
      resident, each counted once however many banks share it. */
  lemma ChargeIsTheUnion(g: Geometry, lengths: seq<nat>, resident: set<nat>, runNeed: (nat, nat) -> nat, touched: set<nat>)
    requires g.page > 0 && g.ratio > 0 && g.rowBytes > 0 && PerPage(g, resident, runNeed)
    requires forall q :: q in touched <==> Touched(g, lengths, q)
    ensures Charges(RunsOf(g, lengths), g.page, runNeed) == Times(|touched - resident|, g.page)
  {
    RunsAreTheUnion(g, lengths);
    assert lengths[..|lengths|] == lengths;
    assert touched == AllPages(RunsOf(g, lengths));
    hide *;
    ChargesAreNonResident(g, resident, runNeed, RunsOf(g, lengths));
  }

  /** Byte `x` is among the bytes bank `b` is credited with when the candidate `cand` is
      admitted at length `candLen`: a row for every `ratio` tokens and two more, up to the
      bank's capacity, and none for an empty bank. */
  ghost predicate CreditedByte(g: Geometry, credit: seq<nat>, cand: nat, candLen: nat, b: nat, x: nat)
    requires g.ratio > 0
  {
    && b < |credit|
    && var length := if b == cand then candLen else credit[b];
       length != 0 && b * g.stride <= x
       && (x < b * g.stride + (length / g.ratio + 2) * g.rowBytes && x < b * g.stride + g.capRows * g.rowBytes)
  }

  ghost predicate InPage(g: Geometry, q: nat, x: nat) { q * g.page <= x < q * g.page + g.page }

  lemma CreditedInFields(g: Geometry, credit: seq<nat>, cand: nat, candLen: nat, b: nat, x: nat)
    requires g.ratio > 0
    ensures CreditedByte(g, credit, cand, candLen, b, x) <==> Credited(g, Lengths(credit, cand, candLen), b, x)
  {
    if b < |credit| {
      var length := if b == cand then candLen else credit[b];
      if length / g.ratio + 2 > g.capRows {
        TimesRises(g.capRows, length / g.ratio + 2, g.rowBytes);
      } else {
        TimesRises(length / g.ratio + 2, g.capRows, g.rowBytes);
      }
      NoRows(g);
    }
  }

  /** The whole projection in the caller's own terms: the page size times the pages that
      some credited byte lies in and that are not resident. */
  lemma ChargeInFields(g: Geometry, credit: seq<nat>, cand: nat, candLen: nat, resident: set<nat>,
                       runNeed: (nat, nat) -> nat, touched: set<nat>)
    requires g.page > 0 && g.ratio > 0 && g.rowBytes > 0 && PerPage(g, resident, runNeed)
    requires forall q :: q in touched <==> exists b, x :: CreditedByte(g, credit, cand, candLen, b, x) && InPage(g, q, x)
    ensures Charges(RunsOf(g, Lengths(credit, cand, candLen)), g.page, runNeed) == g.page * |touched - resident|
  {
    var lengths := Lengths(credit, cand, candLen);
    forall b: nat, x: nat
      ensures CreditedByte(g, credit, cand, candLen, b, x) <==> Credited(g, lengths, b, x)
    {
      CreditedInFields(g, credit, cand, candLen, b, x);
    }
    hide CreditedByte, Credited, Lengths, Charges, RunsOf, PerPage;
    forall x: nat, q: nat
      ensures Page(g, x) == q <==> InPage(g, q, x)
    {
      PageBounds(g, x);
      if InPage(g, q, x) { PageIs(g, x, q); }
    }
    hide Page, InPage;
    ChargeIsTheUnion(g, lengths, resident, runNeed, touched);
  }

  /** There is such a set: touched pages are finitely many. */
  lemma TouchedPages(g: Geometry, lengths: seq<nat>) returns (touched: set<nat>)
    requires g.page > 0 && g.ratio > 0 && g.rowBytes > 0
    ensures forall q :: q in touched <==> Touched(g, lengths, q)
  {
    RunsAreTheUnion(g, lengths);
    assert lengths[..|lengths|] == lengths;
    touched := AllPages(RunsOf(g, lengths));
  }

  lemma RowsGrow(g: Geometry, a: nat, b: nat)
    requires g.ratio > 0 && a <= b
    ensures Rows(g, a) <= Rows(g, b)
  {
    var h := g.(page := g.ratio);
    PagesRise(h, a, b);
  }

  /** Larger credits touch at least the same pages. */
  lemma TouchedGrows(g: Geometry, small: seq<nat>, large: seq<nat>, q: nat)
    requires g.page > 0 && g.ratio > 0 && |small| == |large|
    requires forall b :: 0 <= b < |small| ==> small[b] <= large[b]
    requires Touched(g, small, q)
    ensures Touched(g, large, q)
  {
    hide Rows, Page, Times;
    var b: nat, x: nat :| Credited(g, small, b, x) && Page(g, x) == q;
    RowsGrow(g, small[b], large[b]);
    TimesRises(Rows(g, small[b]), Rows(g, large[b]), g.rowBytes);
    assert Credited(g, large, b, x);
  }

  /** So the charge never falls when any credit rises. */
  lemma ChargeIsMonotone(g: Geometry, small: seq<nat>, large: seq<nat>, resident: set<nat>, runNeed: (nat, nat) -> nat)
    requires g.page > 0 && g.ratio > 0 && g.rowBytes > 0 && PerPage(g, resident, runNeed) && |small| == |large|
    requires forall b :: 0 <= b < |small| ==> small[b] <= large[b]
    ensures Charges(RunsOf(g, small), g.page, runNeed) <= Charges(RunsOf(g, large), g.page, runNeed)
  {
    hide *;
    var a := TouchedPages(g, small);
    var b := TouchedPages(g, large);
    ChargeIsTheUnion(g, small, resident, runNeed, a);
    ChargeIsTheUnion(g, large, resident, runNeed, b);
    forall q | q in a ensures q in b { TouchedGrows(g, small, large, q); }
    SubsetIsSmaller(a - resident, b - resident);
    TimesRises(|a - resident|, |b - resident|, g.page);
  }
}
