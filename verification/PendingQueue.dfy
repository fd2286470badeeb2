/** The forwarder's FIFO of pending requests: a singly linked list with head and tail
    pointers and a count, bounded by a depth. */
module PendingQueue {
  import opened Options

  class Node {
    const id: nat
    const hop: nat
    var next: Node?

    constructor (id: nat, hop: nat)
      ensures this.id == id && this.hop == hop && next == null
    {
      this.id, this.hop, next := id, hop, null;
    }
  }

  datatype Appended = Queued | Closed | Full

  class Forwarder {
    var head: Node?
    var tail: Node?
    var count: nat
    var closing: bool
    const depth: nat
    /** The nodes from head to tail. */
    ghost var spine: seq<Node>

    /** The list is well linked, the tail is its last node, the count is its length and
        a nonzero depth bounds it. */
    ghost predicate Valid()
      reads this, spine
    {
      && Linked(spine)
      && head == (if spine == [] then null else spine[0])
      && tail == (if spine == [] then null else spine[|spine| - 1])
      && count == |spine|
      && (depth != 0 ==> count <= depth)
    }

    ghost function Ids(): seq<nat>
      reads this
    {
      IdsOf(spine)
    }

    constructor (depth: nat)
      ensures Valid() && Ids() == [] && this.depth == depth && !closing && spine == []
    {
      this.depth := depth;
      head, tail, count, closing, spine := null, null, 0, false, [];
    }

    /** Appends a request, once: on a full open queue it waits to be signalled and tries
        again; on a closing one it is refused. */
    method Enqueue(id: nat, hop: nat) returns (r: Appended)
      requires Valid()
      modifies this, spine
      ensures Valid() && closing == old(closing)
      ensures r == Full <==> !closing && depth != 0 && old(count) >= depth
      ensures r == Closed <==> closing
      ensures Ids() == old(Ids()) + if r == Queued then [id] else []
      ensures r == Queued ==> spine != [] && spine[|spine| - 1].hop == hop
      ensures fresh(set n | n in spine && n !in old(spine))
    {
      if closing || (depth != 0 && count >= depth) {
        assert old(Ids()) + [] == old(Ids());
        return if closing then Closed else Full;
      }
      var node := new Node(id, hop);
      if tail != null {
        tail.next := node;
      } else {
        head := node;
      }
      tail := node;
      spine := spine + [node];
      count := count + 1;
      r := Queued;
    }

    /** Removes the oldest request; fails exactly on an empty queue. */
    method Pop() returns (r: Option<nat>)
      requires Valid()
      modifies this
      ensures Valid() && closing == old(closing)
      ensures r.None? <==> old(Ids()) == []
      ensures r.Some? ==> old(Ids()) == [r.value] + Ids()
      ensures r.None? ==> Ids() == old(Ids())
      ensures forall n <- spine :: n in old(spine)
    {
      if head == null { return None; }
      ghost var was := spine;
      var node := head;
      assert node.next == After(was, 0) by { assert was[0].next == After(was, 0); }
      head := node.next;
      if head == null { tail := null; }
      count := count - 1;
      spine := was[1..];
      assert Linked(spine) by {
        forall i | 0 <= i < |spine|
          ensures spine[i].next == After(spine, i)
        {
          assert was[i + 1].next == After(was, i + 1);
        }
      }
      assert IdsOf(was) == [node.id] + IdsOf(spine);
      r := Some(node.id);
    }

    /** Walks to the first request with this id, remembering the node before it. */
    method Locate(id: nat) returns (prev: Node?, node: Node?, ghost k: nat)
      requires Valid()
      ensures node == null <==> id !in Ids()
      ensures node != null ==> IsFirst(Ids(), id, k) && node == spine[k]
      ensures node != null ==> prev == (if k > 0 then spine[k - 1] else null)
    {
      prev, node, k := null, head, 0;
      while node != null && node.id != id
        invariant k <= |spine|
        invariant node == (if k < |spine| then spine[k] else null)
        invariant prev == (if k > 0 then spine[k - 1] else null)
        invariant forall i :: 0 <= i < k ==> spine[i].id != id
        decreases |spine| - k
      {
        assert node.next == After(spine, k) by { assert spine[k].next == After(spine, k); }
        prev, node, k := node, node.next, k + 1;
      }
    }

    /** Takes the k-th node out of the list. */
    method Unlink(prev: Node?, node: Node, ghost k: nat)
      requires Valid() && k < |spine| && node == spine[k]
      requires prev == (if k > 0 then spine[k - 1] else null)
      modifies this, spine
      ensures Valid() && closing == old(closing) && spine == Without(old(spine), k)
    {
      hide Distinct, Without, IdsOf;
      ghost var was := spine;
      WithoutFacts(was, k);
      ghost var after := node.next;
      assert after == After(was, k) by { assert was[k].next == After(was, k); }
      if prev == null {
        head := node.next;
      } else {
        prev.next := node.next;
      }
      if tail == node { tail := prev; }
      count := count - 1;
      spine := Without(was, k);
      forall i | 0 <= i < |spine|
        ensures spine[i].next == After(spine, i)
      {
        var j := if i < k then i else i + 1;
        assert old(was[j].next) == After(was, j) && spine[i] == was[j];
      }
    }

    /** Drops the first request with this id, wherever it is, keeping the order of the
        rest and the tail pointer right. */
    method Remove(id: nat) returns (found: bool)
      requires Valid()
      modifies this, spine
      ensures Valid() && closing == old(closing)
      ensures found <==> id in old(Ids())
      ensures !found ==> Ids() == old(Ids())
      ensures found ==> exists k :: IsFirst(old(Ids()), id, k) && Ids() == old(Ids())[..k] + old(Ids())[k + 1..]
    {
      ghost var k;
      var prev, node;
      prev, node, k := Locate(id);
      found := node != null;
      if found {
        WithoutFacts(spine, k);
        Unlink(prev, node, k);
      }
    }

    method CloseQueue()
      requires Valid()
      modifies this
      ensures Valid() && closing && Ids() == old(Ids())
    {
      closing := true;
    }
  }

  ghost function After(spine: seq<Node>, i: int): Node?
    requires 0 <= i < |spine|
  {
    if i + 1 < |spine| then spine[i + 1] else null
  }

  ghost predicate Distinct(spine: seq<Node>) {
    forall i, j :: 0 <= i < j < |spine| ==> spine[i] != spine[j]
  }

  ghost function Without(spine: seq<Node>, k: nat): (rest: seq<Node>)
    requires k < |spine|
    ensures |rest| == |spine| - 1
    ensures forall i :: 0 <= i < |rest| ==> rest[i] == spine[if i < k then i else i + 1]
  {
    spine[..k] + spine[k + 1..]
  }

  lemma WithoutFacts(spine: seq<Node>, k: nat)
    requires k < |spine| && Distinct(spine)
    ensures Distinct(Without(spine, k))
    ensures IdsOf(Without(spine, k)) == IdsOf(spine)[..k] + IdsOf(spine)[k + 1..]
    ensures forall j :: 0 <= j < |spine| && j != k - 1 && k > 0 ==> spine[j] != spine[k - 1]
    ensures spine[|spine| - 1] == spine[k] <==> k == |spine| - 1
  {
  }

  /** Consecutive, distinct nodes; the last one points nowhere. */
  ghost predicate Linked(spine: seq<Node>)
    reads spine
  {
    && Distinct(spine)
    && (forall i {:trigger spine[i].next} :: 0 <= i < |spine| ==> spine[i].next == After(spine, i))
  }

  ghost function IdsOf(spine: seq<Node>): (ids: seq<nat>)
    ensures |ids| == |spine|
    ensures forall i :: 0 <= i < |ids| ==> ids[i] == spine[i].id
  {
    seq(|spine|, i requires 0 <= i < |spine| => spine[i].id)
  }

  ghost predicate IsFirst(ids: seq<nat>, id: nat, k: int) {
    0 <= k < |ids| && ids[k] == id && forall i :: 0 <= i < k ==> ids[i] != id
  }
}
