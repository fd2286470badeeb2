/** The slot cache that streams routed experts: how many whole rows of a routing batch
    fit, which slot a lookup hits, which slot a miss evicts, and the staging of a batch,
    which pins its hits before it admits its misses. */
module ExpertCache {
  import opened Arithmetic

  const EXPERTS_MAX: nat := 288
  const U32_MAX: nat := 0xFFFF_FFFF
  const HOT_PIN: nat := 0xFFFF_FFFF_FFFF_FFFF

  /** `used` is the epoch of the last use, zero for a free slot. */
  datatype Slot = Slot(layer: nat, expert: int, used: nat, pinned: nat)

  // ---- Whole rows that fit ----

  function Distinct(ids: seq<int>): set<int> { set id | id in ids }

  predicate ArgsOk(ids: seq<int>, rows: nat, used: nat, experts: nat, capacity: nat) {
    used > 0 && used <= experts <= EXPERTS_MAX && capacity > 0 && rows <= U32_MAX / used
  }

  predicate IdsOk(ids: seq<int>, experts: nat) { forall i :: 0 <= i < |ids| ==> 0 <= ids[i] < experts }

  /** The longest whole-row prefix whose distinct experts fit, for ids in range. An id out
      of range before the capacity is exceeded gives zero. */
  ghost predicate RowsFit(ids: seq<int>, rows: nat, used: nat, experts: nat, capacity: nat, r: nat) {
    && r <= rows && Times(r, used) <= |ids|
    && (r > 0 ==> IdsOk(ids[..Times(r, used)], experts) && |Distinct(ids[..Times(r, used)])| <= capacity)
    && (0 < r < rows ==> Overflows(ids, r, used, capacity))
    && (r == 0 < rows ==> !IdsOk(ids, experts) || Overflows(ids, 0, used, capacity))
  }

  /** Row `r` brings the distinct experts over the capacity. */
  ghost predicate Overflows(ids: seq<int>, r: nat, used: nat, capacity: nat) {
    Times(r + 1, used) <= |ids| && |Distinct(ids[..Times(r + 1, used)])| > capacity
  }

  lemma DistinctGrows(a: seq<int>, b: seq<int>)
    requires a <= b
    ensures Distinct(a) <= Distinct(b) && |Distinct(a)| <= |Distinct(b)|
  {
    SubsetIsSmaller(Distinct(a), Distinct(b));
  }

  /** What the scan knows after some of the ids: which were seen and how many differ. */
  ghost predicate Scanned(ids: seq<int>, n: nat, experts: nat, seen: seq<bool>, unique: nat) {
    && n <= |ids| && |seen| == EXPERTS_MAX && experts <= EXPERTS_MAX
    && IdsOk(ids[..n], experts)
    && (forall id :: 0 <= id < EXPERTS_MAX ==> (seen[id] <==> id in Distinct(ids[..n])))
    && unique == |Distinct(ids[..n])|
  }

  lemma ScanStep(ids: seq<int>, n: nat, experts: nat, seen: seq<bool>, unique: nat)
    requires n < |ids| && Scanned(ids, n, experts, seen, unique) && 0 <= ids[n] < experts
    ensures Scanned(ids, n + 1, experts, seen[ids[n] := true], if seen[ids[n]] then unique else unique + 1)
  {
    assert ids[..n + 1] == ids[..n] + [ids[n]];
    var was := Distinct(ids[..n]);
    assert Distinct(ids[..n + 1]) == was + {ids[n]};
    if ids[n] in was { assert was + {ids[n]} == was; } else { assert |was + {ids[n]}| == |was| + 1; }
  }

  lemma ScanNone(ids: seq<int>, experts: nat, seen: seq<bool>)
    requires |seen| == EXPERTS_MAX && experts <= EXPERTS_MAX && forall i :: 0 <= i < EXPERTS_MAX ==> !seen[i]
    ensures Scanned(ids, 0, experts, seen, 0)
  {
    assert Distinct(ids[..0]) == {};
  }

  method CacheRows(ids: seq<int>, rows: nat, used: nat, experts: nat, capacity: nat) returns (r: nat)
    requires |ids| == Times(rows, used)
    ensures !ArgsOk(ids, rows, used, experts, capacity) ==> r == 0
    ensures ArgsOk(ids, rows, used, experts, capacity) ==> RowsFit(ids, rows, used, experts, capacity, r)
  {
    if used == 0 || used > experts || experts > EXPERTS_MAX || capacity == 0 || rows > U32_MAX / used { return 0; }
    hide Times, RowsFit, Scanned, ArgsOk;
    var seen := new bool[EXPERTS_MAX](_ => false);
    var unique: nat := 0;
    ScanNone(ids, experts, seen[..]);
    TimesStep(0, used);
    for row := 0 to rows
      invariant Scanned(ids, Times(row, used), experts, seen[..], unique) && unique <= capacity
    {
      TimesStep(row, used);
      TimesRises(row + 1, rows, used);
      ghost var seen0, unique0 := seen[..], unique;
      var outcome, at;
      outcome, unique, at := ScanRow(ids, Times(row, used), used, experts, capacity, seen, unique);
      match outcome
      case BadId =>
        BadIdGivesZero(ids, at, rows, used, experts, capacity);
        return 0;
      case Over =>
        RowStops(ids, seen0, unique0, at + 1, seen[..], unique, row, rows, used, experts, capacity);
        return row;
      case Whole =>
    }
    AllRows(ids, seen[..], unique, rows, used, experts, capacity);
    return rows;
  }

  datatype Outcome = BadId | Over | Whole

  /** Scans one row: to its end, to an id out of range, or to one expert too many. */
  method ScanRow(ids: seq<int>, from: nat, used: nat, experts: nat, capacity: nat, seen: array<bool>, unique0: nat)
    returns (o: Outcome, unique: nat, at: nat)
    requires from + used <= |ids| && Scanned(ids, from, experts, seen[..], unique0) && unique0 <= capacity
    modifies seen
    ensures from <= at <= from + used
    ensures o.BadId? ==> at < from + used && !(0 <= ids[at] < experts)
    ensures o.Over? ==> at < from + used && Scanned(ids, at + 1, experts, seen[..], unique) && unique > capacity
    ensures o.Whole? ==> Scanned(ids, from + used, experts, seen[..], unique) && unique <= capacity
  {
    ScanSized(ids, from, experts, seen[..], unique0);
    hide Scanned;
    unique := unique0;
    for i := 0 to used
      invariant Scanned(ids, from + i, experts, seen[..], unique) && unique <= capacity
    {
      at := from + i;
      var id := ids[at];
      if id < 0 || id >= experts { return BadId, unique, at; }
      ScanStep(ids, at, experts, seen[..], unique);
      if !seen[id] {
        seen[id] := true;
        unique := unique + 1;
        if unique > capacity { return Over, unique, at; }
      } else {
        assert seen[..][id := true] == seen[..];
      }
    }
    o, at := Whole, from;
  }

  lemma ScanSized(ids: seq<int>, n: nat, experts: nat, seen: seq<bool>, unique: nat)
    requires Scanned(ids, n, experts, seen, unique)
    ensures |seen| == EXPERTS_MAX && experts <= EXPERTS_MAX
  {
  }

  lemma RowStops(ids: seq<int>, seen0: seq<bool>, unique0: nat, n: nat, seen: seq<bool>, unique: nat,
                 row: nat, rows: nat, used: nat, experts: nat, capacity: nat)
    requires Scanned(ids, Times(row, used), experts, seen0, unique0) && unique0 <= capacity && row < rows
    requires Scanned(ids, n, experts, seen, unique) && unique > capacity
    requires n <= Times(row + 1, used) <= |ids|
    ensures RowsFit(ids, rows, used, experts, capacity, row)
  {
    hide Times, Distinct;
    DistinctGrows(ids[..n], ids[..Times(row + 1, used)]);
  }

  lemma BadIdGivesZero(ids: seq<int>, at: nat, rows: nat, used: nat, experts: nat, capacity: nat)
    requires at < |ids| && !(0 <= ids[at] < experts)
    ensures RowsFit(ids, rows, used, experts, capacity, 0)
  {
    TimesStep(0, used);
    hide Times;
  }

  lemma AllRows(ids: seq<int>, seen: seq<bool>, unique: nat, rows: nat, used: nat, experts: nat, capacity: nat)
    requires Scanned(ids, Times(rows, used), experts, seen, unique) && unique <= capacity
    ensures RowsFit(ids, rows, used, experts, capacity, rows)
  {
    hide Times;
    assert ids[..0] == [] && Distinct([]) == {};
    TimesStep(0, used);
  }

  // ---- Slots ----

  predicate Holds(s: Slot, layer: nat, expert: int) { s.used != 0 && s.layer == layer && s.expert == expert }

  predicate Held(s: Slot, epoch: nat) { s.pinned == epoch || s.pinned == HOT_PIN }

  /** No two used slots hold the same expert of the same layer. */
  ghost predicate NoDuplicate(ss: seq<Slot>) {
    forall i, j :: 0 <= i < j < |ss| && ss[i].used != 0 ==> !Holds(ss[j], ss[i].layer, ss[i].expert)
  }

  /** The slots that hold an expert of the batch. */
  ghost function Residents(ss: seq<Slot>, layer: nat, batch: set<int>): set<nat> {
    set j | 0 <= j < |ss| && ss[j].used != 0 && ss[j].layer == layer && ss[j].expert in batch
  }

  ghost predicate Resident(ss: seq<Slot>, layer: nat, expert: int) { exists j: nat :: j < |ss| && Holds(ss[j], layer, expert) }

  /** While a batch is staged: a slot is held exactly when it holds one of the batch's
      experts or was blocked from the start. */
  ghost predicate HeldExactly(ss: seq<Slot>, layer: nat, batch: set<int>, epoch: nat, blocked: set<nat>) {
    && (forall j :: 0 <= j < |ss| ==> (Held(ss[j], epoch) <==> j in blocked || j in Residents(ss, layer, batch)))
    && (forall j <- blocked :: j < |ss|)
    && blocked * Residents(ss, layer, batch) == {}
  }

  lemma Pick<T>(s: set<T>) returns (e: T)
    requires |s| > 0
    ensures e in s
  {
    e :| e in s;
  }

  /** Without duplicates there are exactly as many such slots as resident experts. */
  lemma {:induction false} ResidentCount(ss: seq<Slot>, layer: nat, batch: set<int>)
    requires NoDuplicate(ss)
    ensures |Residents(ss, layer, batch)| <= |batch|
    ensures (forall e <- batch :: Resident(ss, layer, e)) ==> |Residents(ss, layer, batch)| == |batch|
    ensures (exists e <- batch :: !Resident(ss, layer, e)) ==> |Residents(ss, layer, batch)| < |batch|
    decreases |batch|
  {
    if |batch| == 0 {
      assert Residents(ss, layer, batch) == {};
    } else {
      var e := Pick(batch);
      var rest := batch - {e};
      ResidentCount(ss, layer, rest);
      ResidentOneMore(ss, layer, rest, e);
      assert batch == rest + {e};
    }
  }

  lemma ResidentOneMore(ss: seq<Slot>, layer: nat, rest: set<int>, e: int)
    requires NoDuplicate(ss) && e !in rest
    ensures |Residents(ss, layer, rest + {e})| == |Residents(ss, layer, rest)| + if Resident(ss, layer, e) then 1 else 0
  {
    var now, was := Residents(ss, layer, rest + {e}), Residents(ss, layer, rest);
    if Resident(ss, layer, e) {
      var j: nat :| j < |ss| && Holds(ss[j], layer, e);
      forall k | k in now ensures k == j || k in was { OnlyOne(ss, j, k); }
      assert now == was + {j} && j !in was;
    } else {
      forall k | k in now ensures k in was { assert Holds(ss[k], layer, ss[k].expert); }
      assert now == was;
    }
  }

  lemma OnlyOne(ss: seq<Slot>, j: nat, k: nat)
    requires NoDuplicate(ss) && j < |ss| && k < |ss| && ss[j].used != 0
    ensures Holds(ss[k], ss[j].layer, ss[j].expert) ==> j == k
  {
    assert j < k ==> !Holds(ss[k], ss[j].layer, ss[j].expert);
    assert k < j && ss[k].used != 0 ==> !Holds(ss[j], ss[k].layer, ss[k].expert);
  }

  /** Pigeonhole: while an expert of the batch is missing and the batch fits beside the
      blocked slots, some slot is free to evict. */
  lemma SomeVictim(ss: seq<Slot>, layer: nat, batch: set<int>, epoch: nat, blocked: set<nat>, missing: int)
    requires NoDuplicate(ss) && HeldExactly(ss, layer, batch, epoch, blocked)
    requires missing in batch && !Resident(ss, layer, missing)
    ensures |batch| + |blocked| <= |ss| ==> exists j :: 0 <= j < |ss| && !Held(ss[j], epoch)
  {
    ResidentCount(ss, layer, batch);
    var r := Residents(ss, layer, batch);
    if forall j :: 0 <= j < |ss| ==> Held(ss[j], epoch) {
      assert Indices(|ss|) == blocked + r;
      assert |blocked + r| == |blocked| + |r|;
    }
  }

  ghost function Indices(n: nat): (s: set<nat>)
    ensures |s| == n && forall j: nat :: j in s <==> j < n
  {
    if n == 0 then {} else Indices(n - 1) + {n - 1}
  }

  /** And once the whole batch is resident it did fit beside them. */
  lemma BatchFits(ss: seq<Slot>, layer: nat, batch: set<int>, epoch: nat, blocked: set<nat>)
    requires NoDuplicate(ss) && HeldExactly(ss, layer, batch, epoch, blocked)
    requires forall e <- batch :: Resident(ss, layer, e)
    ensures |batch| + |blocked| <= |ss|
  {
    ResidentCount(ss, layer, batch);
    var r := Residents(ss, layer, batch);
    SubsetIsSmaller(blocked + r, Indices(|ss|));
  }

  method Find(slots: array<Slot>, layer: nat, expert: int) returns (r: int)
    ensures r < 0 ==> !Resident(slots[..], layer, expert)
    ensures r >= 0 ==> r < slots.Length && Holds(slots[r], layer, expert)
                       && forall j :: 0 <= j < r ==> !Holds(slots[j], layer, expert)
  {
    for i := 0 to slots.Length
      invariant forall j :: 0 <= j < i ==> !Holds(slots[j], layer, expert)
    {
      if slots[i].used != 0 && slots[i].layer == layer && slots[i].expert == expert { return i; }
    }
    r := -1;
  }

  /** The first free slot that may be evicted, or the least recently used one. */
  method Victim(slots: array<Slot>, epoch: nat) returns (r: int)
    ensures r < 0 <==> forall j :: 0 <= j < slots.Length ==> Held(slots[j], epoch)
    ensures r >= 0 ==> r < slots.Length && !Held(slots[r], epoch)
    ensures r >= 0 ==> forall j :: 0 <= j < slots.Length && !Held(slots[j], epoch) ==>
      slots[r].used <= slots[j].used && (j < r ==> slots[r].used < slots[j].used)
  {
    r := -1;
    for i := 0 to slots.Length
      invariant r < 0 <==> forall j :: 0 <= j < i ==> Held(slots[j], epoch)
      invariant r >= 0 ==> r < i && !Held(slots[r], epoch) && slots[r].used != 0
      invariant forall j :: 0 <= j < i && !Held(slots[j], epoch) ==>
        r >= 0 && 0 < slots[r].used <= slots[j].used && (j < r ==> slots[r].used < slots[j].used)
    {
      if slots[i].pinned == epoch || slots[i].pinned == HOT_PIN { continue; }
      if slots[i].used == 0 { return i; }
      if r < 0 || slots[i].used < slots[r].used { r := i; }
    }
  }

  /** Putting a batch expert into a slot that is not held keeps everything. */
  lemma AdmitKeeps(ss: seq<Slot>, v: nat, layer: nat, batch: set<int>, epoch: nat, blocked: set<nat>, e: int)
    requires v < |ss| && !Held(ss[v], epoch) && epoch != 0 && e in batch && !Resident(ss, layer, e)
    requires NoDuplicate(ss) && HeldExactly(ss, layer, batch, epoch, blocked)
    ensures var ss' := ss[v := Slot(layer, e, epoch, epoch)];
      NoDuplicate(ss') && HeldExactly(ss', layer, batch, epoch, blocked)
  {
    var ss' := ss[v := Slot(layer, e, epoch, epoch)];
    assert forall j :: 0 <= j < |ss| ==> !Holds(ss[j], layer, e);
    assert Residents(ss', layer, batch) == Residents(ss, layer, batch) + {v};
  }

  /** Touching a slot that holds a batch expert keeps everything. */
  lemma TouchKeeps(ss: seq<Slot>, v: nat, layer: nat, batch: set<int>, epoch: nat, blocked: set<nat>, pin: nat)
    requires v < |ss| && epoch != 0 && v in Residents(ss, layer, batch) && (pin == epoch || pin == HOT_PIN)
    requires NoDuplicate(ss) && HeldExactly(ss, layer, batch, epoch, blocked)
    ensures var ss' := ss[v := ss[v].(used := epoch, pinned := pin)];
      NoDuplicate(ss') && HeldExactly(ss', layer, batch, epoch, blocked)
  {
    var ss' := ss[v := ss[v].(used := epoch, pinned := pin)];
    assert Residents(ss', layer, batch) == Residents(ss, layer, batch);
  }

  /** The slots that stay out of reach of a batch: hot pins of other layers, or of experts
      outside the batch when hot pins are not being released. */
  predicate IsBlocked(s: Slot, hotActive: bool, layer: nat, batch: set<int>) {
    && s.pinned == HOT_PIN && !(hotActive && s.layer == layer)
    && !(s.used != 0 && s.layer == layer && s.expert in batch)
  }

  ghost function Blocked(ss: seq<Slot>, epoch: nat, hotActive: bool, layer: nat, batch: set<int>): set<nat> {
    if epoch == HOT_PIN then {} else set j: nat | j < |ss| && IsBlocked(ss[j], hotActive, layer, batch)
  }

  /** A slot when the batch's hits have been pinned. */
  function Pinned(s: Slot, layer: nat, batch: set<int>, epoch: nat): Slot {
    if s.used != 0 && s.layer == layer && s.expert in batch then s.(pinned := epoch) else s
  }

  /** A slot as the batch finds it: same-layer hot pins released, and every pin when the
      epoch counter wraps. */
  function Released(s: Slot, hotActive: bool, layer: nat, wraps: bool): Slot {
    if wraps || (hotActive && s.layer == layer && s.pinned == HOT_PIN) then s.(pinned := 0) else s
  }

  ghost predicate SameTags(a: seq<Slot>, b: seq<Slot>) {
    |a| == |b| && forall j :: 0 <= j < |a| ==> a[j].(pinned := 0) == b[j].(pinned := 0)
  }

  /** No pin is from a later epoch than the current one. */
  ghost predicate PinsOk(ss: seq<Slot>, epoch: nat) {
    forall j :: 0 <= j < |ss| ==> ss[j].pinned <= epoch || ss[j].pinned == HOT_PIN
  }

  /** After release and pinning exactly the blocked slots and the hits are held. */
  lemma StagingStarts(ss: seq<Slot>, epoch: nat, hotActive: bool, layer: nat, batch: set<int>, pinned: seq<Slot>)
    requires PinsOk(ss, epoch) && epoch <= HOT_PIN && |pinned| == |ss| && NoDuplicate(ss)
    requires var next := if epoch == HOT_PIN then 1 else epoch + 1;
      forall j :: 0 <= j < |ss| ==>
        pinned[j] == Pinned(Released(ss[j], hotActive, layer, epoch == HOT_PIN), layer, batch, next)
    ensures var next := if epoch == HOT_PIN then 1 else epoch + 1;
      HeldExactly(pinned, layer, batch, next, Blocked(ss, epoch, hotActive, layer, batch)) && PinsOk(pinned, next)
    ensures NoDuplicate(pinned) && SameTags(ss, pinned)
  {
    var next := if epoch == HOT_PIN then 1 else epoch + 1;
    var blocked := Blocked(ss, epoch, hotActive, layer, batch);
    var r := Residents(pinned, layer, batch);
    forall j: nat | j < |ss| ensures Held(pinned[j], next) <==> j in blocked || j in r {
      assert ss[j].pinned <= epoch || ss[j].pinned == HOT_PIN;
    }
    SameTagsKeep(ss, pinned);
  }

  lemma SameTagsKeep(a: seq<Slot>, b: seq<Slot>)
    requires |a| == |b| && NoDuplicate(a)
    requires forall j :: 0 <= j < |a| ==> a[j].used == b[j].used && a[j].layer == b[j].layer && a[j].expert == b[j].expert
    ensures NoDuplicate(b) && SameTags(a, b)
  {
    forall i, j | 0 <= i < j < |b| && b[i].used != 0
      ensures !Holds(b[j], b[i].layer, b[i].expert)
    {
      assert !Holds(a[j], a[i].layer, a[i].expert);
    }
  }

  function NextEpoch(epoch: nat): nat { if epoch == HOT_PIN then 1 else epoch + 1 }

  class Cache {
    const slots: array<Slot>
    var epoch: nat
    const hotActive: bool
    const hotTail: nat

    ghost predicate Valid()
      reads this, slots
    {
      epoch <= HOT_PIN && NoDuplicate(slots[..]) && PinsOk(slots[..], epoch)
    }

    /** A fresh cache: zeroed slots, none of them in use. */
    constructor (count: nat, hotActive: bool, hotTail: nat)
      ensures Valid() && slots.Length == count && fresh(slots) && this.hotActive == hotActive && this.hotTail == hotTail
    {
      slots := new Slot[count](_ => Slot(0, 0, 0, 0));
      epoch, this.hotActive, this.hotTail := 0, hotActive, hotTail;
    }

    /** Releases this layer's hot pins and starts the next epoch, never zero. */
    method Begin(layer: nat)
      requires epoch <= HOT_PIN
      modifies this, slots
      ensures epoch == NextEpoch(old(epoch))
      ensures forall j :: 0 <= j < slots.Length ==>
        slots[j] == Released(old(slots[j]), hotActive, layer, old(epoch) == HOT_PIN)
    {
      if hotActive {
        for i := 0 to slots.Length
          invariant epoch == old(epoch)
          invariant forall j :: 0 <= j < slots.Length ==>
            slots[j] == if j < i then Released(old(slots[j]), true, layer, false) else old(slots[j])
        {
          if slots[i].layer == layer && slots[i].pinned == HOT_PIN { slots[i] := slots[i].(pinned := 0); }
        }
      }
      epoch := if epoch == HOT_PIN then 0 else epoch + 1;
      if epoch == 0 {
        ghost var was := slots[..];
        for i := 0 to slots.Length
          invariant epoch == 0
          invariant forall j :: 0 <= j < slots.Length ==> slots[j] == if j < i then was[j].(pinned := 0) else was[j]
        {
          slots[i] := slots[i].(pinned := 0);
        }
        epoch := 1;
      }
    }

    /** Pins every slot that already holds an expert of the batch. */
    method PinHits(layer: nat, ids: seq<int>)
      requires NoDuplicate(slots[..])
      modifies slots
      ensures forall j :: 0 <= j < slots.Length ==> slots[j] == Pinned(old(slots[j]), layer, Distinct(ids), epoch)
    {
      ghost var was := slots[..];
      for i := 0 to |ids|
        invariant forall j :: 0 <= j < slots.Length ==> slots[j] == Pinned(was[j], layer, Distinct(ids[..i]), epoch)
      {
        assert Distinct(ids[..i + 1]) == Distinct(ids[..i]) + {ids[i]};
        SameTagsKeep(was, slots[..]);
        var slot := Find(slots, layer, ids[i]);
        ghost var before := slots[..];
        if slot >= 0 {
          forall j: nat | j < slots.Length && Holds(slots[j], layer, ids[i]) ensures j == slot { OnlyOne(slots[..], slot, j); }
          slots[slot] := slots[slot].(pinned := epoch);
        } else {
          assert forall j: nat :: j < slots.Length ==> !Holds(before[j], layer, ids[i]);
        }
        assert forall j: nat :: j < slots.Length ==> (Holds(before[j], layer, ids[i]) <==> j == slot);
      }
      assert ids[..|ids|] == ids;
    }

    /** Serves one routed id: the slot that holds the expert, or a victim filled with it.
        It fails when the upload does, or when every slot is held. */
    method Admit(layer: nat, expert: int, uploads: bool, ghost batch: set<int>, ghost blocked: set<nat>) returns (slot: int)
      requires epoch != 0 && expert in batch
      requires NoDuplicate(slots[..]) && HeldExactly(slots[..], layer, batch, epoch, blocked) && PinsOk(slots[..], epoch)
      modifies slots
      ensures NoDuplicate(slots[..]) && PinsOk(slots[..], epoch)
      ensures slot < 0 && uploads ==> |batch| + |blocked| > slots.Length
      ensures slot >= 0 ==> HeldExactly(slots[..], layer, batch, epoch, blocked)
      ensures slot >= 0 ==> slot < slots.Length && slots[slot] == Slot(layer, expert, epoch, epoch)
      ensures slot >= 0 ==> forall j :: 0 <= j < slots.Length && j != slot ==> slots[j] == old(slots[j])
      ensures slot >= 0 ==> (Held(old(slots[slot]), epoch) ==> Holds(old(slots[slot]), layer, expert))
    {
      ghost var was := slots[..];
      slot := Find(slots, layer, expert);
      if slot < 0 {
        SomeVictim(was, layer, batch, epoch, blocked, expert);
        slot := Victim(slots, epoch);
        if slot < 0 { return -1; }
        AdmitKeeps(was, slot, layer, batch, epoch, blocked, expert);
        hide NoDuplicate, HeldExactly;
        slots[slot] := slots[slot].(used := 0);
        if !uploads {
          FreeKeeps(was, slot);
          assert slots[..] == was[slot := was[slot].(used := 0)];
          return -1;
        }
        slots[slot] := Slot(layer, expert, slots[slot].used, slots[slot].pinned);
      } else {
        assert slot in Residents(was, layer, batch);
        TouchKeeps(was, slot, layer, batch, epoch, blocked, epoch);
      }
      hide NoDuplicate, HeldExactly;
      slots[slot] := slots[slot].(used := epoch, pinned := epoch);
      assert slots[..] == was[slot := Slot(layer, expert, epoch, epoch)];
    }

    /** Admits the batch's ids in order. */
    method AdmitAll(layer: nat, ids: seq<int>, uploads: seq<bool>, ghost blocked: set<nat>)
      returns (ok: bool, places: seq<nat>)
      requires epoch != 0 && |uploads| == |ids|
      requires NoDuplicate(slots[..]) && HeldExactly(slots[..], layer, Distinct(ids), epoch, blocked) && PinsOk(slots[..], epoch)
      modifies slots
      ensures NoDuplicate(slots[..]) && PinsOk(slots[..], epoch)
      ensures ok ==> |Distinct(ids)| + |blocked| <= slots.Length
      ensures !ok && (forall u <- uploads :: u) ==> |Distinct(ids)| + |blocked| > slots.Length
      ensures ok ==> HeldExactly(slots[..], layer, Distinct(ids), epoch, blocked)
      ensures ok ==> |places| == |ids| && Placed(slots[..], layer, ids, epoch, places)
      ensures ok ==> KeepsHeld(old(slots[..]), slots[..], epoch)
      ensures ok ==> Filled(old(slots[..]), slots[..], layer, ids, epoch, places)
    {
      ghost var batch := Distinct(ids);
      places := [];
      for i := 0 to |ids|
        invariant NoDuplicate(slots[..]) && HeldExactly(slots[..], layer, batch, epoch, blocked) && PinsOk(slots[..], epoch)
        invariant |places| == i && Placed(slots[..], layer, ids, epoch, places)
        invariant KeepsHeld(old(slots[..]), slots[..], epoch)
        invariant Filled(old(slots[..]), slots[..], layer, ids, epoch, places)
      {
        hide NoDuplicate, HeldExactly, PinsOk, Placed, KeepsHeld, Held, Filled;
        assert ids[i] in batch;
        ghost var was := slots[..];
        var slot := Admit(layer, ids[i], uploads[i], batch, blocked);
        assert uploads[i] in uploads;
        if slot < 0 { return false, places; }
        AdmittedKeeps(old(slots[..]), was, slots[..], slot, layer, ids, epoch, places);
        AdmittedFills(old(slots[..]), was, slots[..], slot, layer, ids, epoch, places);
        places := places + [slot];
      }
      hide NoDuplicate, HeldExactly, PinsOk;
      forall e | e in batch ensures Resident(slots[..], layer, e) {
        var k: nat :| k < |ids| && ids[k] == e;
        assert Holds(slots[..][places[k]], layer, e);
      }
      BatchFits(slots[..], layer, batch, epoch, blocked);
      ok := true;
    }

    /** Makes the last rows' slots hot. */
    method PinHot(layer: nat, ids: seq<int>, places: seq<nat>)
      requires |places| == |ids| && Placed(slots[..], layer, ids, epoch, places)
      requires NoDuplicate(slots[..]) && PinsOk(slots[..], epoch)
      modifies slots
      ensures NoDuplicate(slots[..]) && PinsOk(slots[..], epoch) && Placed(slots[..], layer, ids, epoch, places)
      ensures Repinned(old(slots[..]), slots[..], epoch)
      ensures forall j :: 0 <= j < slots.Length ==>
        slots[j] == if j in Newest(places, hotTail) then old(slots[j]).(pinned := HOT_PIN) else old(slots[j])
    {
      var start := if |ids| > hotTail then |ids| - hotTail else 0;
      ghost var was := slots[..];
      for i := start to |ids|
        invariant Repinned(was, slots[..], epoch) && PinsOk(slots[..], epoch)
        invariant Placed(slots[..], layer, ids, epoch, places)
        invariant forall j :: 0 <= j < slots.Length ==>
          slots[j] == if j in places[start..i] then was[j].(pinned := HOT_PIN) else was[j]
      {
        var p := places[i];
        ghost var before := slots[..];
        RepinStep(was, before, p, layer, ids, epoch, places);
        hide Placed, Repinned, PinsOk;
        assert places[start..i + 1] == places[start..i] + [p];
        slots[p] := slots[p].(pinned := HOT_PIN);
        assert slots[..] == before[p := before[p].(pinned := HOT_PIN)];
      }
      assert places[start..|ids|] == places[start..];
      SameTagsKeep(was, slots[..]);
    }

    /** Stages a routed batch of whole rows for a layer. */
    method Stage(layer: nat, ids: seq<int>, rows: nat, perRow: nat, experts: nat, uploads: seq<bool>)
      returns (ok: bool, places: seq<nat>)
      requires Valid() && |ids| == Times(rows, perRow) && |uploads| == |ids|
      modifies this, slots
      ensures Valid()
      ensures !Accepts(ids, rows, perRow, experts, slots.Length) ==> !ok && slots[..] == old(slots[..]) && epoch == old(epoch)
      ensures Accepts(ids, rows, perRow, experts, slots.Length) && (forall u <- uploads :: u) ==>
        (ok <==> |Distinct(ids)| + |Blocked(old(slots[..]), old(epoch), hotActive, layer, Distinct(ids))| <= slots.Length)
      ensures ok ==> |places| == |ids| && Placed(slots[..], layer, ids, epoch, places)
      ensures ok ==> forall j :: 0 <= j < slots.Length && InBatch(old(slots[j]), layer, ids) ==>
        Holds(slots[j], layer, old(slots[j]).expert)
      ensures ok ==> forall j <- Blocked(old(slots[..]), old(epoch), hotActive, layer, Distinct(ids)) ::
        old(slots[j]).used != 0 ==> Holds(slots[j], old(slots[j]).layer, old(slots[j]).expert)
      ensures ok ==> forall j: nat :: j < slots.Length && j !in places ==>
        var s := old(slots[j]);
        slots[j] == s.(pinned := if old(epoch) == HOT_PIN || (hotActive && s.layer == layer && s.pinned == HOT_PIN) then 0 else s.pinned)
      ensures ok ==> forall k :: 0 <= k < |places| ==>
        && places[k] < slots.Length
        && slots[places[k]] == Slot(layer, ids[k], epoch, if hotActive && places[k] in Newest(places, hotTail) then HOT_PIN else epoch)
    {
      places := [];
      if rows == 0 { return false, places; }
      var r := CacheRows(ids, rows, perRow, experts, slots.Length);
      AcceptsExactly(ids, rows, perRow, experts, slots.Length, r);
      if r != rows { return false, places; }
      ghost var was, before, batch := slots[..], epoch, Distinct(ids);
      ghost var blocked := Blocked(was, before, hotActive, layer, batch);
      Begin(layer);
      ReleasedKeeps(was, slots[..], hotActive, layer, before == HOT_PIN);
      PinHits(layer, ids);
      ghost var pinned := slots[..];
      StagingStarts(was, before, hotActive, layer, batch, pinned);
      hide NoDuplicate, HeldExactly, PinsOk, Placed, KeepsHeld, Blocked, SameTags;
      ok, places := AdmitAll(layer, ids, uploads, blocked);
      if !ok { return; }
      ghost var admitted := slots[..];
      if hotActive { PinHot(layer, ids, places); } else { RepinNothing(admitted, epoch); }
      StagedKeeps(was, pinned, admitted, slots[..], layer, ids, epoch, blocked);
      StagedExactly(was, before, hotActive, pinned, admitted, layer, ids, epoch, places, blocked);
    }
  }

  /** Every held slot of `from` still holds what it held. */
  ghost predicate KeepsHeld(from: seq<Slot>, to: seq<Slot>, epoch: nat) {
    |from| == |to| && forall j :: 0 <= j < |from| && Held(from[j], epoch) && from[j].used != 0 ==>
      Held(to[j], epoch) && Holds(to[j], from[j].layer, from[j].expert)
  }

  /** Where the routed ids of a batch ended up. */
  ghost predicate Placed(ss: seq<Slot>, layer: nat, ids: seq<int>, epoch: nat, places: seq<nat>) {
    && |places| <= |ids|
    && forall k :: 0 <= k < |places| ==>
         places[k] < |ss| && Holds(ss[places[k]], layer, ids[k]) && ss[places[k]].used == epoch && Held(ss[places[k]], epoch)
  }

  /** Serving the next id disturbs nothing that is held. */
  lemma AdmittedKeeps(from: seq<Slot>, was: seq<Slot>, now: seq<Slot>, slot: nat, layer: nat, ids: seq<int>,
                      epoch: nat, places: seq<nat>)
    requires |was| == |now| && slot < |now| && |places| < |ids| && epoch != 0
    requires now[slot] == Slot(layer, ids[|places|], epoch, epoch)
    requires forall j :: 0 <= j < |now| && j != slot ==> now[j] == was[j]
    requires Held(was[slot], epoch) ==> Holds(was[slot], layer, ids[|places|])
    requires Placed(was, layer, ids, epoch, places) && KeepsHeld(from, was, epoch)
    ensures Placed(now, layer, ids, epoch, places + [slot]) && KeepsHeld(from, now, epoch)
  {
  }

  /** A batch in its slots: those are filled and pinned, and no other changed. */
  ghost predicate Filled(from: seq<Slot>, to: seq<Slot>, layer: nat, ids: seq<int>, epoch: nat, places: seq<nat>) {
    && |from| == |to| && |places| <= |ids|
    && (forall j: nat :: j < |from| && j !in places ==> to[j] == from[j])
    && (forall k :: 0 <= k < |places| ==> places[k] < |to| && to[places[k]] == Slot(layer, ids[k], epoch, epoch))
  }

  lemma AdmittedFills(from: seq<Slot>, was: seq<Slot>, now: seq<Slot>, slot: nat, layer: nat, ids: seq<int>,
                      epoch: nat, places: seq<nat>)
    requires |was| == |now| && slot < |now| && |places| < |ids| && epoch != 0
    requires now[slot] == Slot(layer, ids[|places|], epoch, epoch)
    requires forall j :: 0 <= j < |now| && j != slot ==> now[j] == was[j]
    requires Held(was[slot], epoch) ==> Holds(was[slot], layer, ids[|places|])
    requires Filled(from, was, layer, ids, epoch, places)
    ensures Filled(from, now, layer, ids, epoch, places + [slot])
  {
    var all := places + [slot];
    forall j: nat | j < |from| && j !in all ensures now[j] == from[j] {
      assert slot == all[|places|] && forall k :: 0 <= k < |places| ==> places[k] == all[k];
    }
  }

  /** The slots of the last `n` routed ids. */
  function Newest(places: seq<nat>, n: nat): seq<nat> { if |places| > n then places[|places| - n..] else places }

  lemma NewestIs(places: seq<nat>, n: nat, p: nat)
    ensures p in Newest(places, n) <==> exists m :: 0 <= m < |places| <= m + n && places[m] == p
  {
    var last := Newest(places, n);
    forall m | 0 <= m < |places| <= m + n ensures places[m] in last {
      assert last[m - (|places| - |last|)] == places[m];
    }
  }

  /** Staging leaves every slot it did not serve from as the release left it. */
  lemma StagedExactly(was: seq<Slot>, epoch0: nat, hotActive: bool, pinned: seq<Slot>, admitted: seq<Slot>, layer: nat,
                      ids: seq<int>, epoch: nat, places: seq<nat>, blocked: set<nat>)
    requires NoDuplicate(admitted) && HeldExactly(pinned, layer, Distinct(ids), epoch, blocked)
    requires KeepsHeld(pinned, admitted, epoch) && |was| == |pinned| && |places| == |ids| && epoch != 0
    requires Filled(pinned, admitted, layer, ids, epoch, places)
    requires forall j :: 0 <= j < |was| ==>
      pinned[j] == Pinned(Released(was[j], hotActive, layer, epoch0 == HOT_PIN), layer, Distinct(ids), epoch)
    ensures forall j: nat :: j < |was| && j !in places ==>
      admitted[j] == Released(was[j], hotActive, layer, epoch0 == HOT_PIN)
  {
    forall j: nat | j < |was| && j !in places
      ensures admitted[j] == Released(was[j], hotActive, layer, epoch0 == HOT_PIN)
    {
      if InBatch(pinned[j], layer, ids) {
        assert j in Residents(pinned, layer, Distinct(ids));
        assert Holds(admitted[j], layer, pinned[j].expert);
        var k: nat :| k < |ids| && ids[k] == pinned[j].expert;
        OnlyOne(admitted, j, places[k]);
        assert false;
      }
    }
  }

  /** Only pins changed, and no held slot was let go. */
  ghost predicate Repinned(a: seq<Slot>, b: seq<Slot>, epoch: nat) {
    |a| == |b| && forall j :: 0 <= j < |a| ==>
      a[j].used == b[j].used && a[j].layer == b[j].layer && a[j].expert == b[j].expert && (Held(a[j], epoch) ==> Held(b[j], epoch))
  }

  lemma RepinNothing(a: seq<Slot>, epoch: nat)
    ensures Repinned(a, a, epoch)
  {
  }

  lemma RepinStep(was: seq<Slot>, before: seq<Slot>, p: nat, layer: nat, ids: seq<int>, epoch: nat, places: seq<nat>)
    requires p < |before| && Repinned(was, before, epoch) && Placed(before, layer, ids, epoch, places) && PinsOk(before, epoch)
    ensures var now := before[p := before[p].(pinned := HOT_PIN)];
      Repinned(was, now, epoch) && Placed(now, layer, ids, epoch, places) && PinsOk(now, epoch)
  {
  }

  lemma ReleasedKeeps(was: seq<Slot>, now: seq<Slot>, hotActive: bool, layer: nat, wraps: bool)
    requires |was| == |now| && NoDuplicate(was)
    requires forall j :: 0 <= j < |was| ==> now[j] == Released(was[j], hotActive, layer, wraps)
    ensures NoDuplicate(now)
  {
    SameTagsKeep(was, now);
  }

  predicate InBatch(s: Slot, layer: nat, ids: seq<int>) { s.used != 0 && s.layer == layer && s.expert in ids }

  /** The batches that staging takes on: whole rows in range whose distinct experts fit
      the cache. */
  predicate Accepts(ids: seq<int>, rows: nat, perRow: nat, experts: nat, count: nat) {
    rows > 0 && ArgsOk(ids, rows, perRow, experts, count) && IdsOk(ids, experts) && |Distinct(ids)| <= count
  }

  lemma AcceptsExactly(ids: seq<int>, rows: nat, perRow: nat, experts: nat, count: nat, r: nat)
    requires |ids| == Times(rows, perRow) && rows > 0
    requires !ArgsOk(ids, rows, perRow, experts, count) ==> r == 0
    requires ArgsOk(ids, rows, perRow, experts, count) ==> RowsFit(ids, rows, perRow, experts, count, r)
    ensures r == rows <==> Accepts(ids, rows, perRow, experts, count)
  {
    hide Times, ArgsOk, IdsOk, Distinct;
    assert ids[..|ids|] == ids;
    if Times(r + 1, perRow) <= |ids| { DistinctGrows(ids[..Times(r + 1, perRow)], ids); }
  }

  /** So no expert of the batch was evicted, and no blocked slot was touched. */
  lemma StagedKeeps(was: seq<Slot>, pinned: seq<Slot>, admitted: seq<Slot>, final: seq<Slot>, layer: nat, ids: seq<int>,
                    epoch: nat, blocked: set<nat>)
    requires SameTags(was, pinned) && HeldExactly(pinned, layer, Distinct(ids), epoch, blocked)
    requires KeepsHeld(pinned, admitted, epoch) && Repinned(admitted, final, epoch)
    ensures |final| == |was| && (forall j <- blocked :: j < |was|)
    ensures forall j :: 0 <= j < |was| && InBatch(was[j], layer, ids) ==> Holds(final[j], layer, was[j].expert)
    ensures forall j <- blocked :: was[j].used != 0 ==> Holds(final[j], was[j].layer, was[j].expert)
  {
    forall j | 0 <= j < |was| && InBatch(was[j], layer, ids) ensures Holds(final[j], layer, was[j].expert) {
      assert was[j].(pinned := 0) == pinned[j].(pinned := 0);
      assert j in Residents(pinned, layer, Distinct(ids));
      assert Holds(admitted[j], pinned[j].layer, pinned[j].expert);
    }
    forall j | j in blocked && was[j].used != 0 ensures Holds(final[j], was[j].layer, was[j].expert) {
      assert was[j].(pinned := 0) == pinned[j].(pinned := 0);
      assert Holds(admitted[j], pinned[j].layer, pinned[j].expert);
    }
  }

  lemma FreeKeeps(ss: seq<Slot>, v: nat)
    requires v < |ss| && NoDuplicate(ss)
    ensures NoDuplicate(ss[v := ss[v].(used := 0)])
  {
  }
}
