/** The wait lists of ipc.c as they are in memory: a list head and the tlist nodes of the suspended threads, linked
    into a ring.  Suspending, resuming and timing out on the ring are proved to be what WaitList says of plain
    sequences of threads, which is how the IPC objects of the other modules see them. */
module WaitRing {
  import opened IntrusiveList
  import W = WaitList

  /** The threads behind the list head; rt_list_entry tells the thread a node is part of. */
  ghost function Ids(ring: seq<Node>, entry: map<Node, nat>): (ids: seq<nat>)
    requires |ring| > 0 && forall i :: 0 < i < |ring| ==> ring[i] in entry
    ensures |ids| == |ring| - 1
  {
    seq(|ring| - 1, i requires 0 <= i < |ring| - 1 => entry[ring[i + 1]])
  }

  lemma InsertedIds(ring: seq<Node>, entry: map<Node, nat>, k: nat, n: Node)
    requires k < |ring| && (forall i :: 0 < i < |ring| ==> ring[i] in entry) && n in entry
    ensures forall i :: 0 < i < |Inserted(ring, k, n)| ==> Inserted(ring, k, n)[i] in entry
    ensures Ids(Inserted(ring, k, n), entry) == W.Insert(Ids(ring, entry), k, entry[n])
  {
    var now := Inserted(ring, k, n);
    forall i | 0 < i < |now| ensures now[i] in entry {
      assert now[i] == if i <= k then ring[i] else if i == k + 1 then n else ring[i - 1];
    }
  }

  lemma WithoutIds(ring: seq<Node>, entry: map<Node, nat>, k: nat)
    requires 0 < k < |ring| && forall i :: 0 < i < |ring| ==> ring[i] in entry
    ensures forall i :: 0 < i < |Without(ring, k)| ==> Without(ring, k)[i] in entry
    ensures Ids(Without(ring, k), entry) == W.Remove(Ids(ring, entry), k - 1)
  {
    var now := Without(ring, k);
    forall i | 0 < i < |now| ensures now[i] in entry {
      assert now[i] == ring[if i < k then i else i + 1];
    }
  }

  /** One turn of the search: it ends here, or the place is further on. */
  lemma SearchStep(list: seq<nat>, prio: nat -> nat, p: nat, i: nat)
    requires i <= |list|
    ensures W.FirstBelow(list[i..], prio, p)
            == if i == |list| || p < prio(list[i]) then 0 else 1 + W.FirstBelow(list[i + 1..], prio, p)
  {
    if i < |list| {
      assert list[i..][1..] == list[i + 1..];
    }
  }

  class WaitRing {
    const head: Node
    const entry: map<Node, nat>
    ghost var ring: seq<Node>

    ghost predicate Valid()
      reads this, ring
    {
      |ring| > 0 && Ring(ring) && ring[0] == head && forall i :: 0 < i < |ring| ==> ring[i] in entry
    }

    ghost function Threads(): seq<nat>
      requires |ring| > 0 && forall i :: 0 < i < |ring| ==> ring[i] in entry
      reads this
    {
      Ids(ring, entry)
    }

    /** rt_list_init of an object's suspend_thread. */
    constructor (list: Node, entry: map<Node, nat>)
      modifies list
      ensures Valid() && Threads() == [] && head == list && this.entry == entry
    {
      head, this.entry, ring := list, entry, [list];
      new;
      Init(list);
    }

    lemma Along(k: nat)
      requires Valid() && k < |ring|
      ensures ring[k].next == ring[Succ(k, |ring|)] && (ring[k] == head <==> k == 0)
      ensures k > 0 ==> ring[k] in entry && entry[ring[k]] == Threads()[k - 1]
    {
      assert Linked(ring[k], ring[Succ(k, |ring|)]);
    }

    /** The loop of _ipc_list_suspend: along the ring to the first node of a less urgent thread, or back to the list
        head. */
    method FindBelow(prio: nat -> nat, p: nat) returns (node: Node, ghost i: nat)
      requires Valid()
      ensures i == 1 + W.FirstBelow(Threads(), prio, p) <= |ring| && node == ring[if i < |ring| then i else 0]
      ensures node == head <==> i == |ring|
    {
      hide W.FirstBelow, Ring, Distinct, Ids;
      Along(0);
      i := 1;
      assert Threads()[0..] == Threads();
      node := head.next;
      if i < |ring| { Along(i); }
      while node != head
        invariant 1 <= i <= |ring| && node == ring[if i < |ring| then i else 0]
        invariant i < |ring| ==> node != head
        invariant W.FirstBelow(Threads(), prio, p) == i - 1 + W.FirstBelow(Threads()[i - 1..], prio, p)
        decreases |ring| - i
      {
        Along(i);
        SearchStep(Threads(), prio, p, i - 1);
        if p < prio(entry[node]) {
          return;
        }
        node := node.next;
        i := i + 1;
        if i < |ring| { Along(i); }
      }
      SearchStep(Threads(), prio, p, i - 1);
    }

    /** _ipc_list_suspend for a thread whose node is on no list. */
    method Suspend(n: Node, prio: nat -> nat, flag: W.Flag)
      requires Valid() && n !in ring && n in entry
      modifies this, ring, n
      ensures Valid()
      ensures Threads() == W.Insert(old(Threads()), W.Place(old(Threads()), prio, prio(entry[n]), flag), entry[n])
    {
      hide Distinct;
      match flag
      case Fifo => PutBefore(head, n, |ring|);
      case Prio =>
        var node, i := FindBelow(prio, prio(entry[n]));
        PutBefore(node, n, i);
    }

    /** rt_list_insert_before element i, or before the list head. */
    method PutBefore(l: Node, n: Node, ghost i: nat)
      requires Valid() && n !in ring && n in entry && 0 < i <= |ring| && l == ring[if i < |ring| then i else 0]
      modifies this, ring, n
      ensures Valid() && Threads() == W.Insert(old(Threads()), i - 1, entry[n])
    {
      InsertedIds(ring, entry, i - 1, n);
      InsertBefore(l, n, ring, if i < |ring| then i else 0);
      ring := Inserted(ring, i - 1, n);
    }

    /** _ipc_list_resume, up to the thread's insertion into the ready queue. */
    method Resume() returns (t: nat)
      requires Valid() && Threads() != []
      modifies this, ring
      ensures Valid() && t == old(Threads())[0] && Threads() == old(Threads())[1..]
      ensures forall i :: 0 <= i < |ring| ==> ring[i] in old(ring)
      ensures exists n :: n in old(ring) && n !in ring && n in entry && entry[n] == t && Ring([n])
    {
      ghost var list := Threads();
      assert Linked(ring[0], ring[Succ(0, |ring|)]);
      var n := head.next;
      t := entry[n];
      Unlink(n, 1);
      assert list[..0] + list[1..] == list[1..];
    }

    /** rt_thread_timeout takes the thread off whatever list it waits on. */
    method Unlink(n: Node, ghost k: nat)
      requires Valid() && 0 < k < |ring| && ring[k] == n
      modifies this, ring
      ensures Valid() && Threads() == W.Remove(old(Threads()), k - 1)
      ensures n !in ring && Ring([n]) && forall i :: 0 <= i < |ring| ==> ring[i] in old(ring)
    {
      WithoutIds(ring, entry, k);
      Remove(n, ring, k);
      ring := Without(ring, k);
    }

    /** What every waker does with a wait list: if it is not empty, _ipc_list_resume. */
    method WakeFirst() returns (woken: seq<nat>)
      requires Valid()
      modifies this, ring
      ensures Valid()
      ensures Threads() == if old(Threads()) == [] then [] else old(Threads())[1..]
      ensures woken == if old(Threads()) == [] then [] else [old(Threads())[0]]
    {
      hide Ring, Distinct, Ids;
      woken := [];
      var empty := Empty();
      if !empty {
        var t := Resume();
        woken := [t];
      }
    }

    /** _ipc_list_resume_all: the threads are resumed in list order. */
    method ResumeAll() returns (woken: seq<nat>)
      requires Valid()
      modifies this, ring
      ensures Valid() && Threads() == [] && woken == old(Threads())
    {
      hide Ring, Distinct, Ids;
      woken := [];
      var empty := Empty();
      while !empty
        invariant Valid() && (forall i :: 0 <= i < |ring| ==> ring[i] in old(ring))
                  && woken + Threads() == old(Threads())
        invariant empty <==> Threads() == []
        decreases |ring|
      {
        var t := Resume();
        woken := woken + [t];
        empty := Empty();
      }
    }

    /** rt_list_isempty. */
    method Empty() returns (empty: bool)
      requires Valid()
      ensures empty <==> Threads() == []
    {
      empty := IsEmpty(head, ring);
    }
  }
}
