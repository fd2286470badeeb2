/** The ring of send slots between the prefill producer and the sender thread: the
    producer fills the slot at `tail` outside the lock and then publishes it, the sender
    reads the slot at `head` outside the lock and then releases it. */
module SendRing {
  import opened Modular

  datatype Ring<T> = Ring(slots: seq<T>, head: nat, tail: nat, queued: nat)

  ghost predicate Ok<T>(r: Ring<T>) {
    && 0 < |r.slots| && r.head < |r.slots| && r.queued <= |r.slots|
    && r.tail == Mod(r.head + r.queued, |r.slots|)
  }

  /** The slot of the j-th queued entry. */
  function SlotIndex<T>(r: Ring<T>, j: nat): nat
    requires |r.slots| > 0
  {
    Mod(r.head + j, |r.slots|)
  }

  ghost predicate FreeSlot<T>(r: Ring<T>, slot: nat)
    requires |r.slots| > 0
  {
    slot < |r.slots| && forall j: nat :: j < r.queued ==> SlotIndex(r, j) != slot
  }

  /** The published, unreleased slots, oldest first. */
  ghost function Queue<T>(r: Ring<T>): (q: seq<T>)
    requires Ok(r)
    ensures |q| == r.queued
  {
    seq(r.queued, j requires 0 <= j < r.queued => r.slots[Mod(r.head + j, |r.slots|)])
  }

  function Fill<T>(r: Ring<T>, x: T): Ring<T>
    requires r.tail < |r.slots|
  {
    r.(slots := r.slots[r.tail := x])
  }

  function Publish<T>(r: Ring<T>): Ring<T>
    requires |r.slots| > 0
  {
    r.(tail := Mod(r.tail + 1, |r.slots|), queued := r.queued + 1)
  }

  function Release<T>(r: Ring<T>): Ring<T>
    requires |r.slots| > 0 && r.queued > 0
  {
    r.(head := Mod(r.head + 1, |r.slots|), queued := r.queued - 1)
  }

  lemma NextSlot(a: nat, n: nat)
    requires n > 0
    ensures Mod(Mod(a, n) + 1, n) == Mod(a + 1, n)
  {
    ModAdd(a, 1, n);
    ModAdd(Mod(a, n), 1, n);
    ModSmall(Mod(a, n), n);
  }

  lemma NextHead(h: nat, j: nat, n: nat)
    requires h < n && j <= n
    ensures Mod(Mod(h + 1, n) + j, n) == Mod(h + 1 + j, n)
  {
    hide Mod;
    ModSmall(h, n);
    ModAdd(h, 1, n);
    if h + 1 == n {
      assert Mod(h + 1, n) == 0;
      ModAdd(j, n, n);
    }
  }

  /** The producer's slot is none of the queued ones, whatever the sender is reading. */
  lemma TailIsFree<T>(r: Ring<T>)
    requires Ok(r) && r.queued < |r.slots|
    ensures FreeSlot(r, r.tail)
  {
    hide Mod;
    forall j: nat | j < r.queued
      ensures SlotIndex(r, j) != r.tail
    {
      ModApart(r.head + j, r.head + r.queued, |r.slots|);
    }
  }

  lemma FillKeepsQueue<T>(r: Ring<T>, x: T)
    requires Ok(r) && r.queued < |r.slots|
    ensures Ok(Fill(r, x)) && Queue(Fill(r, x)) == Queue(r) && Fill(r, x).slots[r.tail] == x
  {
    hide Mod;
    TailIsFree(r);
    forall j: nat | j < r.queued
      ensures Queue(Fill(r, x))[j] == Queue(r)[j]
    {
      assert SlotIndex(r, j) != r.tail;
    }
  }

  lemma PublishAppends<T>(r: Ring<T>)
    requires Ok(r) && r.queued < |r.slots|
    ensures Ok(Publish(r)) && Queue(Publish(r)) == Queue(r) + [r.slots[r.tail]]
  {
    hide Mod;
    NextSlot(r.head + r.queued, |r.slots|);
  }

  lemma ReleaseDropsFirst<T>(r: Ring<T>)
    requires Ok(r) && r.queued > 0
    ensures Ok(Release(r)) && Queue(r) == [r.slots[r.head]] + Queue(Release(r))
  {
    hide Mod;
    var n := |r.slots|;
    ModSmall(r.head, n);
    NextHead(r.head, r.queued - 1, n);
    forall j | 0 <= j < r.queued - 1
      ensures Queue(Release(r))[j] == Queue(r)[j + 1]
    {
      NextHead(r.head, j, n);
    }
  }

  datatype Claim = Claimed(slot: nat) | Refused | Waiting

  /** The slot buffer as the threads share it. */
  class Sender<T(0)> {
    const slots: array<T>
    var head: nat
    var tail: nat
    var queued: nat
    var stop: bool
    var failed: bool

    ghost function State(): Ring<T>
      reads this, slots
    {
      Ring(slots[..], head, tail, queued)
    }

    constructor (slotCount: nat)
      requires slotCount > 0
      ensures fresh(slots) && Ok(State()) && Queue(State()) == []
      ensures State().queued == 0 && slots.Length == slotCount && !stop && !failed
    {
      slots := new T[slotCount];
      head, tail, queued, stop, failed := 0, 0, 0, false, false;
    }

    /** The producer's claim on a slot, once: on a full ring it waits to be signalled and
        claims again; once the ring has stopped it is refused. */
    method AcquireSlot() returns (claim: Claim)
      requires Ok(State())
      ensures claim.Waiting? <==> !stop && queued == slots.Length
      ensures claim.Refused? <==> stop || (failed && queued < slots.Length)
      ensures claim.Claimed? ==> claim.slot == tail && FreeSlot(State(), claim.slot)
    {
      if !stop && queued == slots.Length { return Waiting; }
      if stop || failed { return Refused; }
      TailIsFree(State());
      claim := Claimed(tail);
    }

    /** Writing the claimed slot, outside the lock. */
    method FillSlot(x: T)
      requires Ok(State()) && queued < slots.Length
      modifies slots
      ensures State() == Fill(old(State()), x) && Ok(State()) && Queue(State()) == old(Queue(State()))
    {
      FillKeepsQueue(State(), x);
      slots[tail] := x;
    }

    method EnqueueSlot() returns (ok: bool)
      requires Ok(State()) && queued < slots.Length
      modifies this
      ensures ok == !(stop || failed) && stop == old(stop) && failed == old(failed)
      ensures State() == if ok then Publish(old(State())) else old(State())
      ensures Ok(State())
      ensures Queue(State()) == old(Queue(State())) + if ok then [slots[old(tail)]] else []
    {
      if stop || failed {
        assert Queue(State()) + [] == Queue(State());
        return false;
      }
      PublishAppends(State());
      tail := Mod(tail + 1, slots.Length);
      queued := queued + 1;
      ok := true;
    }

    /** After the frame in the head slot left: the slot becomes reusable. */
    method ReleaseSlot()
      requires Ok(State()) && queued > 0
      modifies this
      ensures State() == Release(old(State())) && Ok(State())
      ensures old(Queue(State())) == [slots[old(head)]] + Queue(State())
      ensures stop == old(stop) && failed == old(failed)
    {
      ReleaseDropsFirst(State());
      head := Mod(head + 1, slots.Length);
      queued := queued - 1;
    }

    method SendFailed()
      requires Ok(State())
      modifies this
      ensures State() == old(State()) && stop && failed
    {
      failed, stop := true, true;
    }
  }
}
