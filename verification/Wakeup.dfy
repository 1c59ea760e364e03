/** The waiting protocol that the mailbox, the message queue and the memory pool share: a thread that finds nothing
    joins a wait list; whoever puts something in wakes the first one; a woken thread looks again, and may find that
    somebody else was faster. */
module Wakeup {
  import opened WaitList

  /** A wait list, and the threads resumed from it without error that are not yet back in their retry loops. */
  datatype Line = Line(waiting: seq<nat>, woken: set<nat>)

  const EMPTY := Line([], {})

  /** _ipc_list_resume, if anybody waits. */
  function Wake(l: Line): Line {
    if l.waiting == [] then l else Line(l.waiting[1..], l.woken + {l.waiting[0]})
  }

  /** Thread t looks for the first time or again. */
  function Back(l: Line, t: nat): Line {
    l.(woken := l.woken - {t})
  }

  /** It finds nothing and waits at place k. */
  function Join(l: Line, k: nat, t: nat): Line
    requires k <= |l.waiting|
  {
    Line(Insert(l.waiting, k, t), l.woken - {t})
  }

  /** A thread's timer runs out. */
  function Leave(l: Line, k: nat): Line
    requires k < |l.waiting|
  {
    l.(waiting := Remove(l.waiting, k))
  }

  /** A reset sends everybody away with an error. */
  function Dismiss(l: Line): Line {
    l.(waiting := [])
  }

  /** Waiting threads wait once and have not been woken. */
  ghost predicate Orderly(l: Line) {
    NoDup(l.waiting) && forall t :: t in l.waiting ==> t !in l.woken
  }

  /** Nobody who waits in one line is in the other. */
  ghost predicate Strangers(l: Line, m: Line) {
    && (forall t :: t in l.waiting ==> t !in m.waiting && t !in m.woken)
    && (forall t :: t in m.waiting ==> t !in l.woken)
  }

  /** While somebody waits, each of the n things there are to take has a woken thread on its way to it. */
  ghost predicate Covered(l: Line, n: nat) {
    l.waiting != [] ==> n <= |l.woken|
  }

  /** Nobody waits beside something to take once no woken thread is on its way. */
  lemma QuietMeansNothing(l: Line, n: nat)
    requires Covered(l, n) && l.waiting != [] && l.woken == {}
    ensures n == 0
  {
  }

  lemma WakeKeeps(l: Line, m: Line)
    requires Orderly(l)
    ensures Orderly(Wake(l))
    ensures Strangers(l, m) ==> Strangers(Wake(l), m)
    ensures Strangers(m, l) ==> Strangers(m, Wake(l))
    ensures forall t :: t in Wake(l).waiting ==> t in l.waiting
  {
    if l.waiting != [] { FirstOrRest(l.waiting); }
  }

  /** One more thing to take, one more thread on its way. */
  lemma WakeCovers(l: Line, n: nat)
    requires Orderly(l) && Covered(l, n)
    ensures Covered(Wake(l), n + 1)
  {
    hide NoDup;
    if l.waiting != [] { WokenOneMore(l.woken, l.waiting[0]); }
  }

  /** The thread that is back takes one. */
  lemma BackCovers(l: Line, t: nat, n: nat)
    requires Covered(l, n + 1)
    ensures Covered(Back(l, t), n)
  {
    WokenOneLess(l.woken, t);
  }

  lemma JoinKeeps(l: Line, m: Line, k: nat, t: nat)
    requires Orderly(l) && k <= |l.waiting| && t !in l.waiting
    ensures Orderly(Join(l, k, t))
    ensures Strangers(l, m) && t !in m.waiting && t !in m.woken ==> Strangers(Join(l, k, t), m)
    ensures Strangers(m, l) && t !in m.waiting && t !in m.woken ==> Strangers(m, Join(l, k, t))
    ensures forall u :: u in Join(l, k, t).waiting ==> u == t || u in l.waiting
  {
    hide NoDup;
    InsertNoDup(l.waiting, k, t);
  }

  lemma LeaveKeeps(l: Line, m: Line, k: nat)
    requires Orderly(l) && k < |l.waiting|
    ensures Orderly(Leave(l, k))
    ensures Strangers(l, m) ==> Strangers(Leave(l, k), m)
    ensures Strangers(m, l) ==> Strangers(m, Leave(l, k))
    ensures forall u :: u in Leave(l, k).waiting ==> u in l.waiting
    ensures forall n: nat :: Covered(l, n) ==> Covered(Leave(l, k), n)
  {
    hide NoDup;
    RemoveNoDup(l.waiting, k);
  }

  /** Waking the first leaves the others on the list, in order. */
  lemma WakeStays(l: Line, t: nat, u: nat)
    requires l.waiting != [] ==> l.waiting[0] != t && l.waiting[0] != u
    ensures StillWait(l.waiting, Wake(l).waiting, t, u)
  {
    if l.waiting != [] { RestStays(l.waiting, t, u); }
  }

  lemma DismissKeeps(l: Line, m: Line)
    ensures Orderly(Dismiss(l)) && forall n: nat :: Covered(Dismiss(l), n)
    ensures Strangers(l, m) ==> Strangers(Dismiss(l), m)
    ensures Strangers(m, l) ==> Strangers(m, Dismiss(l))
  {
  }

  lemma WokenOneMore(woken: set<nat>, t: nat)
    requires t !in woken
    ensures |woken + {t}| == |woken| + 1
  {
  }

  lemma WokenOneLess(woken: set<nat>, t: nat)
    ensures |woken - {t}| == if t in woken then |woken| - 1 else |woken|
  {
    if t in woken {
      assert woken == (woken - {t}) + {t};
    } else {
      assert woken - {t} == woken;
    }
  }
}
