/** The counting semaphore of ipc.c as a step machine, for threads of fixed priority. */
module Semaphore {
  import opened WaitList

  const VALUE_MAX: nat := 65535    // RT_SEM_VALUE_MAX

  datatype State = State(
    flag: Flag,
    value: nat,
    waiters: seq<nat>,         // parent.suspend_thread
    stamp: map<nat, nat>,      // when each thread last began to wait
    clock: nat
  )

  datatype Step = Take(t: nat, wait: bool) | Release | Timeout(k: nat) | Reset(value: nat)

  datatype Outcome = Done | Suspended | TimedOut | Full

  predicate Enabled(s: State, step: Step) {
    match step
    case Take(t, wait) => t !in s.waiters
    case Release => true
    case Timeout(k) => k < |s.waiters|
    case Reset(value) => true
  }

  /** A release that finds a waiter hands over to it without touching the value.  A reset keeps the low 16
      bits of its argument and sends every waiter away with an error. */
  function Next(s: State, prio: nat -> nat, step: Step): (State, Outcome)
    requires Enabled(s, step)
  {
    match step
    case Take(t, wait) =>
      if s.value > 0 then (s.(value := s.value - 1), Done)
      else if !wait then (s, TimedOut)
      else (s.(waiters := Insert(s.waiters, Place(s.waiters, prio, prio(t), s.flag), t),
        stamp := s.stamp[t := s.clock], clock := s.clock + 1), Suspended)
    case Release =>
      if s.waiters != [] then (s.(waiters := s.waiters[1..]), Done)
      else if s.value < VALUE_MAX then (s.(value := s.value + 1), Done)
      else (s, Full)
    case Timeout(k) => (s.(waiters := Remove(s.waiters, k)), TimedOut)
    case Reset(value) =>
      (s.(value := value % 65536, waiters := []), Done)
  }

  /** Waiter u is to be woken before waiter v. */
  ghost predicate Ahead(s: State, prio: nat -> nat, u: nat, v: nat) {
    && u in s.stamp && v in s.stamp
    && (if s.flag == Fifo then s.stamp[u] < s.stamp[v]
        else prio(u) < prio(v) || (prio(u) == prio(v) && s.stamp[u] < s.stamp[v]))
  }

  /** Nobody waits beside a free unit. */
  ghost predicate Balanced(s: State) {
    && s.value <= VALUE_MAX
    && (s.waiters != [] ==> s.value == 0)
  }

  ghost predicate Queued(s: State, prio: nat -> nat) {
    && NoDup(s.waiters)
    && (forall i, j :: 0 <= i < j < |s.waiters| ==> Ahead(s, prio, s.waiters[i], s.waiters[j]))
    && (forall t :: t in s.waiters ==> t in s.stamp && s.stamp[t] < s.clock)
  }

  ghost predicate Inv(s: State, prio: nat -> nat) {
    Balanced(s) && Queued(s, prio)
  }

  lemma SuspendQueued(s: State, prio: nat -> nat, t: nat)
    requires Queued(s, prio) && t !in s.waiters
    ensures var k := Place(s.waiters, prio, prio(t), s.flag);
            Queued(s.(waiters := Insert(s.waiters, k, t), stamp := s.stamp[t := s.clock], clock := s.clock + 1), prio)
  {
    hide Place, Ahead;
    var k := Place(s.waiters, prio, prio(t), s.flag);
    var z := s.(waiters := Insert(s.waiters, k, t), stamp := s.stamp[t := s.clock], clock := s.clock + 1);
    InsertNoDup(s.waiters, k, t);
    SuspendPlace(s, prio, t);
    forall i, j | 0 <= i < j < |z.waiters| ensures Ahead(z, prio, z.waiters[i], z.waiters[j]) {
      SuspendAhead(s, z, prio, t, k, i, j);
    }
  }

  lemma SuspendAhead(s: State, z: State, prio: nat -> nat, t: nat, k: nat, i: nat, j: nat)
    requires Queued(s, prio) && k <= |s.waiters| && t !in s.waiters && i < j <= |s.waiters|
    requires z.flag == s.flag && z.waiters == Insert(s.waiters, k, t) && z.stamp == s.stamp[t := s.clock]
    requires s.flag == Fifo ==> k == |s.waiters|
    requires s.flag == Prio ==> (forall l :: 0 <= l < k ==> prio(s.waiters[l]) <= prio(t))
                                && (forall l :: k <= l < |s.waiters| ==> prio(t) < prio(s.waiters[l]))
    ensures Ahead(z, prio, z.waiters[i], z.waiters[j])
  {
    hide NoDup, Insert;
    InsertAt(s.waiters, k, t, i);
    InsertAt(s.waiters, k, t, j);
    if i == k {
      assert s.waiters[j - 1] in s.waiters;
    } else if j == k {
      assert s.waiters[i] in s.waiters;
    } else {
      var x, y := s.waiters[if i < k then i else i - 1], s.waiters[if j < k then j else j - 1];
      assert x in s.waiters && y in s.waiters && Ahead(s, prio, x, y);
    }
  }

  /** The new waiter goes behind everybody it does not outrank. */
  lemma SuspendPlace(s: State, prio: nat -> nat, t: nat)
    requires Queued(s, prio)
    ensures var k := Place(s.waiters, prio, prio(t), s.flag);
            && (s.flag == Fifo ==> k == |s.waiters|)
            && (s.flag == Prio ==> (forall j :: 0 <= j < k ==> prio(s.waiters[j]) <= prio(t))
                                   && (forall j :: k <= j < |s.waiters| ==> prio(t) < prio(s.waiters[j])))
  {
    if s.flag == Prio {
      forall i, j | 0 <= i < j < |s.waiters| ensures prio(s.waiters[i]) <= prio(s.waiters[j]) {
        assert Ahead(s, prio, s.waiters[i], s.waiters[j]);
      }
      SuspendSorted(s.waiters, prio, t);
    }
  }

  lemma StepInv(s: State, prio: nat -> nat, step: Step)
    requires Inv(s, prio) && Enabled(s, step)
    ensures Inv(Next(s, prio, step).0, prio)
  {
    hide Place;
    var z := Next(s, prio, step).0;
    match step {
      case Take(t, wait) => SuspendQueued(s, prio, t);
      case Release =>
        if s.waiters != [] {
          FirstOrRest(s.waiters);
          forall i, j | 0 <= i < j < |z.waiters| ensures Ahead(z, prio, z.waiters[i], z.waiters[j]) {
            assert Ahead(s, prio, s.waiters[i + 1], s.waiters[j + 1]);
          }
        }
      case Timeout(k) => TimeoutInv(s, prio, k);
      case Reset(value) =>
    }
  }

  lemma TimeoutInv(s: State, prio: nat -> nat, k: nat)
    requires Inv(s, prio) && k < |s.waiters|
    ensures Inv(s.(waiters := Remove(s.waiters, k)), prio)
  {
    var z := s.(waiters := Remove(s.waiters, k));
    RemoveNoDup(s.waiters, k);
    forall i, j | 0 <= i < j < |z.waiters| ensures Ahead(z, prio, z.waiters[i], z.waiters[j]) {
      assert z.waiters[i] == s.waiters[if i < k then i else i + 1]
        && z.waiters[j] == s.waiters[if j < k then j else j + 1];
      assert Ahead(s, prio, z.waiters[i], z.waiters[j]);
    }
  }

  /** A run and what each call returned. */
  ghost predicate Run(states: seq<State>, prio: nat -> nat, steps: seq<Step>, outcomes: seq<Outcome>) {
    && |states| == |steps| + 1 && |outcomes| == |steps|
    && states[0].waiters == [] && states[0].value <= VALUE_MAX
    && forall i :: 0 <= i < |steps| ==>
       Enabled(states[i], steps[i]) && (states[i + 1], outcomes[i]) == Next(states[i], prio, steps[i])
  }

  /** Over every run: waiters imply value 0, and they are in the order in which they are to be woken. */
  lemma {:induction false} RunInv(states: seq<State>, prio: nat -> nat, steps: seq<Step>, outcomes: seq<Outcome>,
      i: nat)
    requires Run(states, prio, steps, outcomes) && i < |states|
    ensures Inv(states[i], prio)
  {
    if i > 0 {
      hide Next, Enabled, Inv;
      RunInv(states, prio, steps, outcomes, i - 1);
      assert (states[i - 1 + 1], outcomes[i - 1]) == Next(states[i - 1], prio, steps[i - 1]);
      StepInv(states[i - 1], prio, steps[i - 1]);
    }
  }

  // ----- the ledger -----

  /** Threads blocked in a take: those that were suspended, less those that timed out and those that a release let
      through; counted from the calls and what they returned. */
  function Blocked(steps: seq<Step>, outcomes: seq<Outcome>, i: nat): int
    requires i <= |steps| == |outcomes|
  {
    if i == 0 then 0
    else
      var blocked := Blocked(steps, outcomes, i - 1);
      match steps[i - 1]
      case Take(_, _) => if outcomes[i - 1] == Suspended then blocked + 1 else blocked
      case Release => if outcomes[i - 1] == Done && blocked > 0 then blocked - 1 else blocked
      case Timeout(_) => blocked - 1
      case Reset(_) => 0
  }

  /** Units put in since creation or the last reset: the value set then, and one for each successful release. */
  function PutIn(initial: nat, steps: seq<Step>, outcomes: seq<Outcome>, i: nat): int
    requires i <= |steps| == |outcomes|
  {
    if i == 0 then initial
    else
      match steps[i - 1]
      case Release => PutIn(initial, steps, outcomes, i - 1) + if outcomes[i - 1] == Done then 1 else 0
      case Reset(value) => value % 65536
      case _ => PutIn(initial, steps, outcomes, i - 1)
  }

  /** Units taken out since then: one for each take that succeeded at once, one for each blocked thread that a release
      let through. */
  function TakenOut(steps: seq<Step>, outcomes: seq<Outcome>, i: nat): int
    requires i <= |steps| == |outcomes|
  {
    if i == 0 then 0
    else
      match steps[i - 1]
      case Take(_, _) => TakenOut(steps, outcomes, i - 1) + if outcomes[i - 1] == Done then 1 else 0
      case Release =>
        TakenOut(steps, outcomes, i - 1)
        + if outcomes[i - 1] == Done && Blocked(steps, outcomes, i - 1) > 0 then 1 else 0
      case Reset(_) => 0
      case Timeout(_) => TakenOut(steps, outcomes, i - 1)
  }

  /** Over every run nothing is lost: the value is what was put in less what was taken out, as counted from the calls
      and their results, and as many threads wait as were blocked. */
  lemma {:induction false} RunBalanced(states: seq<State>, prio: nat -> nat, steps: seq<Step>, outcomes: seq<Outcome>,
      i: nat)
    requires Run(states, prio, steps, outcomes) && i < |states|
    ensures states[i].value == PutIn(states[0].value, steps, outcomes, i) - TakenOut(steps, outcomes, i)
    ensures |states[i].waiters| == Blocked(steps, outcomes, i)
  {
    if i > 0 {
      hide Place, Queued;
      RunBalanced(states, prio, steps, outcomes, i - 1);
      RunInv(states, prio, steps, outcomes, i - 1);
      assert (states[i - 1 + 1], outcomes[i - 1]) == Next(states[i - 1], prio, steps[i - 1]);
      assert Enabled(states[i - 1], steps[i - 1]);
    }
  }

  /** What the calls return, over every run: a take succeeds at once iff a unit is there, and a release is refused
      iff nobody is blocked and the value is at its bound. */
  lemma RunOutcomes(states: seq<State>, prio: nat -> nat, steps: seq<Step>, outcomes: seq<Outcome>, i: nat)
    requires Run(states, prio, steps, outcomes) && i < |steps|
    ensures var value, blocked := states[i].value, Blocked(steps, outcomes, i);
            match steps[i]
            case Take(_, wait) => outcomes[i] == if value > 0 then Done else if wait then Suspended else TimedOut
            case Release => outcomes[i] == if blocked == 0 && value == VALUE_MAX then Full else Done
            case Timeout(_) => outcomes[i] == TimedOut
            case Reset(_) => outcomes[i] == Done
  {
    hide Place, Queued;
    RunBalanced(states, prio, steps, outcomes, i);
    RunInv(states, prio, steps, outcomes, i);
    assert (states[i + 1], outcomes[i]) == Next(states[i], prio, steps[i]);
  }

  // ----- who waits -----

  /** The step takes thread t off the list: a release wakes t first, or t times out, or everybody is sent away. */
  predicate Leaves(s: State, step: Step, t: nat) {
    match step
    case Release => s.waiters != [] && s.waiters[0] == t
    case Timeout(k) => k < |s.waiters| && s.waiters[k] == t
    case Reset(_) => true
    case Take(_, _) => false
  }

  lemma StepWaits(s: State, prio: nat -> nat, step: Step, t: nat, u: nat)
    requires Enabled(s, step) && !Leaves(s, step, t) && !Leaves(s, step, u)
    ensures StillWait(s.waiters, Next(s, prio, step).0.waiters, t, u)
  {
    hide Precedes;
    match step {
      case Take(x, wait) => InsertStays(s.waiters, Place(s.waiters, prio, prio(x), s.flag), x, t, u);
      case Release => if s.waiters != [] { RestStays(s.waiters, t, u); }
      case Timeout(k) => RemoveStays(s.waiters, k, t, u);
      case Reset(_) =>
    }
  }

  /** Over every run: threads that wait go on waiting, in the same order, until each is woken as the first of the list,
      times out, or is sent away by a reset.  With t == u this says that no waiting thread is forgotten. */
  lemma {:induction false} WaitersStay(states: seq<State>, prio: nat -> nat, steps: seq<Step>, outcomes: seq<Outcome>,
      i: nat, j: nat, t: nat, u: nat)
    requires Run(states, prio, steps, outcomes) && i <= j < |states|
    requires t in states[i].waiters && u in states[i].waiters
    requires forall k :: i <= k < j ==> !Leaves(states[k], steps[k], t) && !Leaves(states[k], steps[k], u)
    ensures t in states[j].waiters && u in states[j].waiters
    ensures Precedes(states[i].waiters, t, u) ==> Precedes(states[j].waiters, t, u)
  {
    hide Next, Enabled, Precedes, Leaves;
    if i < j {
      WaitersStay(states, prio, steps, outcomes, i, j - 1, t, u);
      assert (states[j - 1 + 1], outcomes[j - 1]) == Next(states[j - 1], prio, steps[j - 1]);
      assert Enabled(states[j - 1], steps[j - 1]);
      StepWaits(states[j - 1], prio, steps[j - 1], t, u);
    }
  }

  /** Each release wakes the waiter ahead of all others: with the priority flag the most urgent one, earliest
      among equals, with the FIFO flag the earliest.  A full semaphore refuses the release unchanged. */
  lemma ReleaseWakesFirst(s: State, prio: nat -> nat)
    requires Inv(s, prio)
    ensures var (z, o) := Next(s, prio, Release);
            && (s.waiters != [] ==> o == Done && z.value == 0 && z.waiters == s.waiters[1..]
                                    && forall u :: u in s.waiters && u != s.waiters[0] ==>
                                       Ahead(s, prio, s.waiters[0], u))
            && (o == Full <==> s.value == VALUE_MAX) && (o == Full ==> z == s)
  {
    if s.waiters != [] {
      forall u | u in s.waiters && u != s.waiters[0] ensures Ahead(s, prio, s.waiters[0], u) {
        var j :| 0 <= j < |s.waiters| && s.waiters[j] == u;
        assert j > 0;
      }
    }
  }

  class Sem {
    const flag: Flag
    var value: nat
    var waiters: seq<nat>
    ghost var s: State

    ghost predicate Valid(prio: nat -> nat)
      reads this
    {
      Inv(s, prio) && flag == s.flag && value == s.value && waiters == s.waiters
    }

    /** rt_sem_init. */
    constructor (value: nat, flag: Flag, prio: nat -> nat)
      requires value <= VALUE_MAX
      ensures Valid(prio) && s == State(flag, value, [], map[], 0)
    {
      this.flag := flag;
      this.value := value;
      waiters := [];
      s := State(flag, value, [], map[], 0);
    }

    /** The region of rt_sem_take. */
    method Take(t: nat, wait: bool, prio: nat -> nat) returns (o: Outcome)
      requires Valid(prio) && t !in s.waiters
      modifies this
      ensures Valid(prio) && (s, o) == old(Next(s, prio, Step.Take(t, wait)))
      ensures o == if old(value) > 0 then Done else if wait then Suspended else TimedOut
      ensures value == if o == Done then old(value) - 1 else old(value)
      ensures o == Suspended ==> TookPlace(old(waiters), waiters, t, prio, flag)
      ensures o != Suspended ==> waiters == old(waiters)
    {
      hide Queued, Balanced, TookPlace, Place, Insert;
      StepInv(s, prio, Step.Take(t, wait));
      if value > 0 {
        value := value - 1;
        o := Done;
      } else if !wait {
        o := TimedOut;
      } else {
        SuspendTakesPlace(waiters, prio, t, flag);
        var pos := FindPlace(waiters, prio, prio(t), flag);
        waiters := Insert(waiters, pos, t);
        o := Suspended;
      }
      s := Next(s, prio, Step.Take(t, wait)).0;
    }

    /** rt_sem_release. */
    method Release(prio: nat -> nat) returns (o: Outcome)
      requires Valid(prio)
      modifies this
      ensures Valid(prio) && (s, o) == old(Next(s, prio, Step.Release))
      ensures o == if old(waiters) == [] && old(value) == VALUE_MAX then Full else Done
      ensures waiters == if old(waiters) == [] then [] else old(waiters)[1..]
      ensures value == if o == Done && old(waiters) == [] then old(value) + 1 else old(value)
    {
      hide Queued;
      StepInv(s, prio, Step.Release);
      if waiters != [] {
        waiters := waiters[1..];
        o := Done;
      } else if value < VALUE_MAX {
        value := value + 1;
        o := Done;
      } else {
        o := Full;
      }
      s := Next(s, prio, Step.Release).0;
    }

    /** A waiter's timer runs out. */
    method TimeOut(k: nat, prio: nat -> nat)
      requires Valid(prio) && k < |waiters|
      modifies this
      ensures Valid(prio) && s == old(Next(s, prio, Timeout(k)).0)
      ensures waiters == old(waiters)[..k] + old(waiters)[k + 1..] && value == old(value)
    {
      hide Queued, Balanced;
      StepInv(s, prio, Timeout(k));
      waiters := Remove(waiters, k);
      s := Next(s, prio, Timeout(k)).0;
    }

    /** rt_sem_control with RT_IPC_CMD_RESET. */
    method ResetValue(v: nat, prio: nat -> nat)
      requires Valid(prio)
      modifies this
      ensures Valid(prio) && s == old(Next(s, prio, Reset(v)).0)
      ensures value == v % 65536 && waiters == []
    {
      hide Queued, Balanced;
      StepInv(s, prio, Reset(v));
      waiters := [];
      value := v % 65536;
      s := Next(s, prio, Reset(v)).0;
    }
  }
}
