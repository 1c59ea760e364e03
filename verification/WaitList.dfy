/** The wait lists of IPC objects: _ipc_list_suspend and _ipc_list_resume of ipc.c.
    A list holds thread ids in the order in which they will be resumed.  A thread's priority is read
    when lists are searched; smaller is more urgent. */
module WaitList {

  datatype Flag = Fifo | Prio

  /** Where _ipc_list_suspend puts a thread of priority p. */
  function Place(list: seq<nat>, prio: nat -> nat, p: nat, flag: Flag): (k: nat)
    ensures k <= |list| && (flag == Fifo ==> k == |list|)
  {
    if flag == Fifo then |list| else FirstBelow(list, prio, p)
  }

  /** Index of the first less urgent thread. */
  function FirstBelow(list: seq<nat>, prio: nat -> nat, p: nat): (k: nat)
    ensures k <= |list|
    ensures forall j :: 0 <= j < k ==> prio(list[j]) <= p
    ensures k < |list| ==> p < prio(list[k])
  {
    if list == [] || p < prio(list[0]) then 0 else 1 + FirstBelow(list[1..], prio, p)
  }

  function Insert(list: seq<nat>, k: nat, t: nat): seq<nat>
    requires k <= |list|
  {
    list[..k] + [t] + list[k..]
  }

  lemma InsertAt(list: seq<nat>, k: nat, t: nat, i: nat)
    requires k <= |list| && i <= |list|
    ensures |Insert(list, k, t)| == |list| + 1
    ensures Insert(list, k, t)[i] == if i < k then list[i] else if i == k then t else list[i - 1]
  {
  }

  lemma InsertFront(list: seq<nat>, t: nat)
    ensures Insert(list, 0, t) == [t] + list
  {
  }

  predicate Sorted(list: seq<nat>, prio: nat -> nat) {
    forall i, j :: 0 <= i < j < |list| ==> prio(list[i]) <= prio(list[j])
  }

  /** A thread suspended by priority goes behind every thread at least as urgent and before every less
      urgent one, so the list stays sorted and equals stay in order of arrival. */
  lemma SuspendSorted(list: seq<nat>, prio: nat -> nat, t: nat)
    requires Sorted(list, prio)
    ensures var k := Place(list, prio, prio(t), Prio);
            && (forall j :: 0 <= j < k ==> prio(list[j]) <= prio(t))
            && (forall j :: k <= j < |list| ==> prio(t) < prio(list[j]))
            && Sorted(Insert(list, k, t), prio)
  {
    var k := Place(list, prio, prio(t), Prio);
    var now := Insert(list, k, t);
    forall i, j | 0 <= i < j < |now| ensures prio(now[i]) <= prio(now[j]) {
      assert i != k ==> now[i] == list[if i < k then i else i - 1];
      assert j != k ==> now[j] == list[if j < k then j else j - 1];
    }
  }

  /** Thread t has joined the list: at its end with the FIFO flag, otherwise behind every thread at least as urgent
      and in front of the first less urgent one; the others wait in the order they had. */
  ghost predicate TookPlace(was: seq<nat>, now: seq<nat>, t: nat, prio: nat -> nat, flag: Flag) {
    exists k: nat :: k <= |was| && JoinedAt(was, now, t, k) && (flag == Fifo ==> k == |was|)
                     && (flag == Prio ==> (forall j :: 0 <= j < k ==> prio(was[j]) <= prio(t))
                                          && (k < |was| ==> prio(t) < prio(was[k])))
  }

  ghost predicate JoinedAt(was: seq<nat>, now: seq<nat>, t: nat, k: nat) {
    k <= |was| && now == was[..k] + [t] + was[k..]
  }

  lemma SuspendTakesPlace(list: seq<nat>, prio: nat -> nat, t: nat, flag: Flag)
    ensures TookPlace(list, Insert(list, Place(list, prio, prio(t), flag), t), t, prio, flag)
  {
    var k := Place(list, prio, prio(t), flag);
    assert JoinedAt(list, Insert(list, k, t), t, k);
  }

  /** t waits in front of u. */
  ghost predicate Precedes(list: seq<nat>, t: nat, u: nat) {
    exists i, j :: 0 <= i < j < |list| && list[i] == t && list[j] == u
  }

  /** If threads t and u waited, they still wait, in the same order. */
  ghost predicate StillWait(was: seq<nat>, now: seq<nat>, t: nat, u: nat) {
    t in was && u in was ==> t in now && u in now && (Precedes(was, t, u) ==> Precedes(now, t, u))
  }

  lemma InsertStays(list: seq<nat>, k: nat, x: nat, t: nat, u: nat)
    requires k <= |list|
    ensures StillWait(list, Insert(list, k, x), t, u)
  {
    assert list == list[..k] + list[k..];
    if Precedes(list, t, u) {
      var i, j :| 0 <= i < j < |list| && list[i] == t && list[j] == u;
      InsertAt(list, k, x, if i < k then i else i + 1);
      InsertAt(list, k, x, if j < k then j else j + 1);
    }
  }

  lemma RemoveStays(list: seq<nat>, k: nat, t: nat, u: nat)
    requires k < |list| && list[k] != t && list[k] != u
    ensures StillWait(list, Remove(list, k), t, u)
  {
    assert list == list[..k] + [list[k]] + list[k + 1..];
    if Precedes(list, t, u) {
      var i, j :| 0 <= i < j < |list| && list[i] == t && list[j] == u;
      var now := Remove(list, k);
      assert now[if i < k then i else i - 1] == t && now[if j < k then j else j - 1] == u;
    }
  }

  /** The first one leaves the list. */
  lemma RestStays(list: seq<nat>, t: nat, u: nat)
    requires list != [] && list[0] != t && list[0] != u
    ensures StillWait(list, list[1..], t, u)
  {
    FirstOrRest(list);
    if Precedes(list, t, u) {
      var i, j :| 0 <= i < j < |list| && list[i] == t && list[j] == u;
      assert list[1..][i - 1] == t && list[1..][j - 1] == u;
    }
  }

  /** The search of _ipc_list_suspend. */
  method FindPlace(list: seq<nat>, prio: nat -> nat, p: nat, flag: Flag) returns (k: nat)
    ensures k == Place(list, prio, p, flag)
  {
    if flag == Fifo {
      return |list|;
    }
    k := 0;
    while k < |list|
      invariant k <= |list| && FirstBelow(list, prio, p) == k + FirstBelow(list[k..], prio, p)
    {
      if p < prio(list[k]) {
        return;
      }
      assert list[k..][1..] == list[k + 1..];
      k := k + 1;
    }
  }

  /** Distinct ids stay distinct. */
  predicate NoDup(list: seq<nat>) {
    forall i, j :: 0 <= i < j < |list| ==> list[i] != list[j]
  }

  lemma InsertNoDup(list: seq<nat>, k: nat, t: nat)
    requires NoDup(list) && t !in list && k <= |list|
    ensures NoDup(Insert(list, k, t))
    ensures forall u :: u in Insert(list, k, t) <==> u == t || u in list
  {
    var now := Insert(list, k, t);
    forall i, j | 0 <= i < j < |now| ensures now[i] != now[j] {
      assert i != k ==> now[i] == list[if i < k then i else i - 1];
      assert j != k ==> now[j] == list[if j < k then j else j - 1];
    }
    assert list == list[..k] + list[k..];
  }

  function Remove(list: seq<nat>, k: nat): seq<nat>
    requires k < |list|
  {
    list[..k] + list[k + 1..]
  }

  lemma RemoveNoDup(list: seq<nat>, k: nat)
    requires NoDup(list) && k < |list|
    ensures NoDup(Remove(list, k))
    ensures forall u :: u in Remove(list, k) <==> u != list[k] && u in list
  {
    var now := Remove(list, k);
    forall u ensures u in now <==> u != list[k] && u in list {
      if u in list && u != list[k] {
        var i :| 0 <= i < |list| && list[i] == u;
        assert now[if i < k then i else i - 1] == u;
      }
      if u in now {
        var i :| 0 <= i < |now| && now[i] == u;
        assert list[if i < k then i else i + 1] == u;
      }
    }
  }

  /** Distinct numbers below n are at most n. */
  lemma {:induction false} Pigeonhole(list: seq<nat>, n: nat)
    requires NoDup(list) && forall k :: 0 <= k < |list| ==> list[k] < n
    ensures |list| <= n
  {
    if list != [] {
      assert list[0] < n;
      if n - 1 in list {
        var k: nat :| k < |list| && list[k] == n - 1;
        RemoveNoDup(list, k);
        hide NoDup;
        var rest := Remove(list, k);
        forall j | 0 <= j < |rest| ensures rest[j] < n - 1 { assert rest[j] in rest; }
        Pigeonhole(rest, n - 1);
      } else {
        forall j | 0 <= j < |list| ensures list[j] < n - 1 { assert list[j] in list; }
        Pigeonhole(list, n - 1);
      }
    }
  }

  lemma FirstOrRest(list: seq<nat>)
    requires list != []
    ensures forall n :: n in list <==> n == list[0] || n in list[1..]
  {
    assert list == [list[0]] + list[1..];
  }
}
