/** The intrusive circular lists of rtservice.h.  A ring lists its nodes in the order of `next`, the list head
    first; the nodes behind the head are the list's elements. */
module IntrusiveList {

  class Node {
    var next: Node?
    var prev: Node?

    constructor ()
      ensures next == null && prev == null
    {
      next, prev := null, null;
    }
  }

  function Succ(i: nat, n: nat): nat {
    if i + 1 < n then i + 1 else 0
  }

  ghost predicate Linked(a: Node, b: Node)
    reads a, b
  {
    a.next == b && b.prev == a
  }

  ghost predicate Distinct(ring: seq<Node>) {
    forall i, j :: 0 <= i < j < |ring| ==> ring[i] != ring[j]
  }

  /** Each node and its successor point at each other, the last one's successor being the first. */
  ghost predicate Ring(ring: seq<Node>)
    reads ring
  {
    && |ring| > 0 && Distinct(ring)
    && forall i: nat :: i < |ring| ==> Linked(ring[i], ring[Succ(i, |ring|)])
  }

  /** `n` becomes the successor of element k. */
  ghost function Inserted(ring: seq<Node>, k: nat, n: Node): seq<Node>
    requires k < |ring|
  {
    ring[..k + 1] + [n] + ring[k + 1..]
  }

  ghost function Without(ring: seq<Node>, k: nat): seq<Node>
    requires k < |ring|
  {
    ring[..k] + ring[k + 1..]
  }

  /** rt_list_init. */
  method Init(l: Node)
    modifies l
    ensures Ring([l])
  {
    l.next := l;
    l.prev := l;
  }

  lemma InsertedAt(ring: seq<Node>, k: nat, n: Node, i: nat)
    requires k < |ring| && i <= |ring|
    ensures var now := Inserted(ring, k, n);
            && |now| == |ring| + 1
            && now[i] == (if i == k + 1 then n else ring[if i > k then i - 1 else i])
            && now[Succ(i, |now|)] == (if i == k then n else if i == k + 1 then ring[Succ(k, |ring|)]
               else ring[Succ(if i > k then i - 1 else i, |ring|)])
  {
  }

  lemma InsertedDistinct(ring: seq<Node>, k: nat, n: Node)
    requires k < |ring| && Distinct(ring) && n !in ring
    ensures Distinct(Inserted(ring, k, n))
  {
    var now := Inserted(ring, k, n);
    forall i, j | 0 <= i < j < |now| ensures now[i] != now[j] {
      InsertedAt(ring, k, n, i);
      InsertedAt(ring, k, n, j);
    }
  }

  /** All links hold but the one behind element k, where n has been put. */
  lemma Spliced(ring: seq<Node>, k: nat, n: Node)
    requires Distinct(ring) && k < |ring| && n !in ring
    requires forall i: nat :: i < |ring| && i != k ==> Linked(ring[i], ring[Succ(i, |ring|)])
    requires Linked(ring[k], n) && Linked(n, ring[Succ(k, |ring|)])
    ensures Ring(Inserted(ring, k, n))
  {
    var now := Inserted(ring, k, n);
    InsertedDistinct(ring, k, n);
    forall i: nat | i < |now| ensures Linked(now[i], now[Succ(i, |now|)]) {
      InsertedAt(ring, k, n, i);
    }
  }

  /** Links other than the one behind element k do not involve what an insertion there writes. */
  lemma OtherLinks(ring: seq<Node>, k: nat, i: nat)
    requires Ring(ring) && k < |ring| && i < |ring| && i != k
    ensures ring[i] != ring[k] && ring[Succ(i, |ring|)] != ring[Succ(k, |ring|)]
            && Linked(ring[i], ring[Succ(i, |ring|)])
  {
    SuccDiffer(i, k, |ring|);
  }

  lemma SuccDiffer(j: nat, k: nat, n: nat)
    requires j < n && k < n && j != k
    ensures Succ(j, n) != Succ(k, n) && Succ(j, n) < n && Succ(k, n) < n
  {
  }

  /** rt_list_insert_after: n follows l. */
  method InsertAfter(l: Node, n: Node, ghost ring: seq<Node>, ghost k: nat)
    requires Ring(ring) && k < |ring| && ring[k] == l && n !in ring
    modifies l, n, ring[Succ(k, |ring|)]
    ensures Ring(Inserted(ring, k, n))
  {
    assert Linked(ring[k], ring[Succ(k, |ring|)]);
    forall i: nat | i < |ring| && i != k
      ensures ring[i] != ring[k] && ring[Succ(i, |ring|)] != ring[Succ(k, |ring|)]
    {
      OtherLinks(ring, k, i);
    }
    var next := l.next;
    next.prev := n;
    n.next := l.next;
    l.next := n;
    n.prev := l;
    Spliced(ring, k, n);
  }

  /** Predecessor of element k. */
  ghost function Pred(k: nat, n: nat): nat
    requires k < n
  {
    if k > 0 then k - 1 else n - 1
  }

  /** rt_list_insert_before: n precedes l; in front of the head is the end of the list. */
  method InsertBefore(l: Node, n: Node, ghost ring: seq<Node>, ghost k: nat)
    requires Ring(ring) && k < |ring| && ring[k] == l && n !in ring
    modifies l, n, ring[Pred(k, |ring|)]
    ensures Ring(Inserted(ring, Pred(k, |ring|), n))
    ensures k == 0 ==> Inserted(ring, Pred(k, |ring|), n) == ring + [n]
  {
    ghost var p := Pred(k, |ring|);
    assert Linked(ring[p], ring[Succ(p, |ring|)]);
    forall i: nat | i < |ring| && i != p
      ensures ring[i] != ring[p] && ring[Succ(i, |ring|)] != ring[Succ(p, |ring|)]
    {
      OtherLinks(ring, p, i);
    }
    var prev := l.prev;
    prev.next := n;
    n.prev := l.prev;
    l.prev := n;
    n.next := l;
    Spliced(ring, Pred(k, |ring|), n);
  }

  lemma WithoutAt(ring: seq<Node>, k: nat, i: nat)
    requires 0 < k < |ring| && i < |ring| - 1
    ensures var now := Without(ring, k);
            && |now| == |ring| - 1
            && now[i] == ring[if i >= k then i + 1 else i]
            && now[Succ(i, |now|)] == (if i + 1 == k then ring[Succ(k, |ring|)]
               else ring[Succ(if i >= k then i + 1 else i, |ring|)])
  {
  }

  lemma Unlinked(ring: seq<Node>, k: nat)
    requires Distinct(ring) && 0 < k < |ring|
    requires forall i: nat :: i < |ring| && i != k - 1 && i != k ==> Linked(ring[i], ring[Succ(i, |ring|)])
    requires Linked(ring[k - 1], ring[Succ(k, |ring|)]) && Linked(ring[k], ring[k])
    ensures Ring(Without(ring, k)) && Ring([ring[k]])
  {
    var now := Without(ring, k);
    forall i, j | 0 <= i < j < |now| ensures now[i] != now[j] {
      WithoutAt(ring, k, i);
      WithoutAt(ring, k, j);
    }
    forall i: nat | i < |now| ensures Linked(now[i], now[Succ(i, |now|)]) {
      WithoutAt(ring, k, i);
    }
  }

  /** rt_list_remove of an element: the rest stays a ring and the node is a ring of its own. */
  method Remove(n: Node, ghost ring: seq<Node>, ghost k: nat)
    requires Ring(ring) && 0 < k < |ring| && ring[k] == n
    modifies n, ring[k - 1], ring[Succ(k, |ring|)]
    ensures Ring(Without(ring, k)) && Ring([n])
  {
    assert Linked(ring[k - 1], ring[Succ(k - 1, |ring|)]) && Linked(ring[k], ring[Succ(k, |ring|)]);
    forall i: nat | i < |ring| && i != k - 1 && i != k
      ensures ring[i] != ring[k - 1] && ring[i] != n && ring[Succ(i, |ring|)] != ring[Succ(k, |ring|)]
              && ring[Succ(i, |ring|)] != n
    {
      OtherLinks(ring, k, i);
      OtherLinks(ring, k - 1, i);
    }
    var next, prev := n.next, n.prev;
    next.prev := n.prev;
    prev.next := n.next;
    n.next := n;
    n.prev := n;
    Unlinked(ring, k);
  }

  /** rt_list_remove of a node that is on no list changes nothing: what rt_schedule_remove_thread relies on for
      the running thread. */
  method RemoveAlone(n: Node)
    requires Ring([n])
    modifies n
    ensures Ring([n]) && n.next == old(n.next) && n.prev == old(n.prev)
  {
    assert Linked([n][0], [n][Succ(0, 1)]);
    n.next.prev := n.prev;
    n.prev.next := n.next;
    n.next := n;
    n.prev := n;
  }

  /** rt_list_isempty. */
  method IsEmpty(l: Node, ghost ring: seq<Node>) returns (empty: bool)
    requires Ring(ring) && ring[0] == l
    ensures empty <==> |ring| == 1
  {
    assert Linked(ring[0], ring[Succ(0, |ring|)]);
    empty := l.next == l;
  }

  /** rt_list_len: the number of elements behind the head. */
  method Len(l: Node, ghost ring: seq<Node>) returns (len: nat)
    requires Ring(ring) && ring[0] == l
    ensures len == |ring| - 1
  {
    len := 0;
    var p := l;
    assert Linked(ring[0], ring[Succ(0, |ring|)]);
    while p.next != l
      invariant len < |ring| && p == ring[len] && p.next == ring[Succ(len, |ring|)]
      decreases |ring| - len
    {
      p := p.next;
      len := len + 1;
      assert Linked(ring[len], ring[Succ(len, |ring|)]);
    }
  }
}
