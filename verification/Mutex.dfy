/** The recursive mutex of ipc.c with priority inheritance, as a step machine over one mutex.  Each of
    rt_mutex_take and rt_mutex_release is one region with interrupts off; a thread handed the mutex owns it
    before it runs again.  A mutex always queues by priority: rt_mutex_init ignores its flag argument. */
module Mutex {
  import opened Order
  import opened WaitList

  const VALUE_MAX: nat := 65535    // RT_MUTEX_VALUE_MAX
  const HOLD_MAX: nat := 255       // RT_MUTEX_HOLD_MAX
  const NOBODY := -1
  const NO_PRIORITY: nat := 0xff

  datatype State = State(
    value: nat,
    owner: int,
    hold: nat,
    original: nat,             // original_priority
    waiters: seq<nat>,         // parent.suspend_thread
    prio: map<nat, nat>,       // current_priority of every thread
    base: map<nat, nat>,       // the priority each thread has of its own
    stamp: map<nat, nat>,      // when each thread last began to wait
    clock: nat
  )

  datatype Step = Take(t: nat, wait: bool) | Release(t: nat) | Timeout(k: nat)

  datatype Outcome = Done | Suspended | TimedOut | Overflow | NotOwner

  /** The priority the waiting-list search reads. */
  function Reader(prio: map<nat, nat>): nat -> nat {
    t => if t in prio then prio[t] else 0
  }

  predicate Enabled(s: State, step: Step) {
    match step
    case Take(t, wait) => t in s.prio && t !in s.waiters
    case Release(t) => t in s.prio && t !in s.waiters
    case Timeout(k) => k < |s.waiters|
  }

  // ----- the steps -----

  /** The owner runs at least at priority p. */
  function Boost(s: State, p: nat): map<nat, nat> {
    if s.owner >= 0 && s.owner in s.prio && p < s.prio[s.owner] then s.prio[s.owner := p] else s.prio
  }

  function TakeStep(s: State, t: nat, wait: bool): (State, Outcome)
    requires t in s.prio
  {
    if s.owner == t then
      if s.hold < HOLD_MAX then (s.(hold := s.hold + 1), Done) else (s, Overflow)
    else if s.value > 0 then
      var z := s.(value := s.value - 1, owner := t, original := s.prio[t]);
      if s.hold < HOLD_MAX then (z.(hold := s.hold + 1), Done) else (z, Overflow)
    else if !wait then
      (s, TimedOut)
    else
      var boosted := Boost(s, s.prio[t]);
      (s.(prio := boosted, waiters := Insert(s.waiters, Place(s.waiters, Reader(boosted), s.prio[t], Prio), t),
          stamp := s.stamp[t := s.clock], clock := s.clock + 1),
       Suspended)
  }

  function ReleaseStep(s: State, t: nat): (State, Outcome)
    requires t in s.prio
  {
    if t != s.owner then (s, NotOwner)
    else if s.hold != 1 then (s.(hold := if s.hold > 0 then s.hold - 1 else 0), Done)
    else HandOver(s.(hold := 0, prio := s.prio[t := s.original]))
  }

  /** The last release, once the owner is back at its original priority. */
  function HandOver(s: State): (State, Outcome) {
    if s.waiters != [] then
      var heir := s.waiters[0];
      var z := s.(owner := heir, original := Reader(s.prio)(heir));
      if s.hold < HOLD_MAX then (z.(hold := s.hold + 1, waiters := s.waiters[1..]), Done) else (z, Overflow)
    else if s.value < VALUE_MAX then
      (s.(value := s.value + 1, owner := NOBODY, original := NO_PRIORITY), Done)
    else
      (s, Overflow)
  }

  function Outcomes(s: State, step: Step): (State, Outcome)
    requires Enabled(s, step)
  {
    match step
    case Take(t, wait) => TakeStep(s, t, wait)
    case Release(t) => ReleaseStep(s, t)
    case Timeout(k) => (s.(waiters := Remove(s.waiters, k)), TimedOut)
  }

  function Next(s: State, step: Step): State
    requires Enabled(s, step)
  {
    Outcomes(s, step).0
  }

  // ----- the protocol -----

  /** Counters and owner agree; waiters imply an owner. */
  ghost predicate Counted(s: State) {
    && (s.owner == NOBODY || (s.owner >= 0 && s.owner in s.prio))
    && (s.value == 1 <==> s.owner == NOBODY) && (s.hold == 0 <==> s.owner == NOBODY)
    && s.value <= 1 && s.hold <= HOLD_MAX
    && (s.waiters != [] ==> s.owner != NOBODY)
    && (s.owner >= 0 ==> s.owner !in s.waiters)
    && NoDup(s.waiters)
    && forall t :: t in s.waiters ==> t in s.prio
  }

  /** Everyone but the owner runs at its own priority; the owner's own priority is kept in `original`. */
  ghost predicate Based(s: State) {
    && s.base.Keys == s.prio.Keys
    && (forall t :: t in s.prio && t != s.owner ==> s.prio[t] == s.base[t])
    && (s.owner >= 0 && s.owner in s.prio ==> s.original == s.base[s.owner] && s.prio[s.owner] <= s.base[s.owner])
  }

  /** Waiter u is to be served before waiter v: more urgent, or equally urgent and earlier. */
  ghost predicate Ahead(s: State, u: nat, v: nat) {
    && u in s.base && v in s.base && u in s.stamp && v in s.stamp
    && (s.base[u] < s.base[v] || (s.base[u] == s.base[v] && s.stamp[u] < s.stamp[v]))
  }

  ghost predicate Queued(s: State) {
    && (forall i, j :: 0 <= i < j < |s.waiters| ==> Ahead(s, s.waiters[i], s.waiters[j]))
    && (forall t :: t in s.waiters ==> t in s.base && t in s.stamp && s.stamp[t] < s.clock)
  }

  /** The owner is at least as urgent as every waiter. */
  ghost predicate Inherited(s: State) {
    s.owner >= 0 && s.owner in s.prio ==> forall t :: t in s.waiters && t in s.base ==> s.prio[s.owner] <= s.base[t]
  }

  ghost predicate Inv(s: State) {
    Counted(s) && Based(s) && Queued(s) && Inherited(s)
  }

  /** After rt_mutex_init. */
  ghost predicate Fresh(s: State) {
    && s.value == 1 && s.owner == NOBODY && s.hold == 0 && s.original == NO_PRIORITY && s.waiters == []
    && s.prio == s.base
  }

  lemma FreshInv(s: State)
    requires Fresh(s)
    ensures Inv(s)
  {
  }

  lemma StepInv(s: State, step: Step)
    requires Inv(s) && Enabled(s, step)
    ensures Inv(Next(s, step))
  {
    match step {
      case Take(t, wait) =>
        if s.owner != t && s.value == 0 && wait { WaitInv(s, t); } else { TakeInv(s, t, wait); }
      case Release(t) => ReleaseInv(s, t);
      case Timeout(k) => TimeoutInv(s, k);
    }
  }

  lemma TakeInv(s: State, t: nat, wait: bool)
    requires Inv(s) && Enabled(s, Take(t, wait)) && !(s.owner != t && s.value == 0 && wait)
    ensures Inv(TakeStep(s, t, wait).0)
  {
  }

  /** Where the new waiter goes, in terms of the threads' own priorities. */
  lemma WaitPlace(s: State, t: nat)
    requires Inv(s) && t in s.prio && t !in s.waiters && t != s.owner
    ensures var k := Place(s.waiters, Reader(Boost(s, s.prio[t])), s.prio[t], Prio);
            && t in s.base && s.prio[t] == s.base[t]
            && (forall j :: 0 <= j < k ==> s.waiters[j] in s.base && s.base[s.waiters[j]] <= s.base[t])
            && (forall j :: k <= j < |s.waiters| ==> s.waiters[j] in s.base && s.base[t] < s.base[s.waiters[j]])
  {
    var r := Reader(Boost(s, s.prio[t]));
    forall j | 0 <= j < |s.waiters| ensures s.waiters[j] in s.base && r(s.waiters[j]) == s.base[s.waiters[j]] {
      assert s.waiters[j] in s.waiters;
    }
    forall i, j | 0 <= i < j < |s.waiters| ensures r(s.waiters[i]) <= r(s.waiters[j]) {
      assert Ahead(s, s.waiters[i], s.waiters[j]);
    }
    assert Sorted(s.waiters, r);
    assert r(t) == s.prio[t];
    SuspendSorted(s.waiters, r, t);
  }

  lemma WaitInv(s: State, t: nat)
    requires Inv(s) && Enabled(s, Take(t, true)) && s.owner != t && s.value == 0
    ensures Inv(TakeStep(s, t, true).0)
  {
    hide Place, Queued;
    WaitPlace(s, t);
    WaitQueued(s, t);
    var k := Place(s.waiters, Reader(Boost(s, s.prio[t])), s.prio[t], Prio);
    InsertNoDup(s.waiters, k, t);
    WaitInherited(s, t, k);
  }

  lemma WaitQueued(s: State, t: nat)
    requires Inv(s) && Enabled(s, Take(t, true)) && s.owner != t && s.value == 0
    ensures Queued(TakeStep(s, t, true).0)
  {
    hide Inherited, Place, Boost;
    var z := TakeStep(s, t, true).0;
    WaitPlace(s, t);
    var k := Place(s.waiters, Reader(Boost(s, s.prio[t])), s.prio[t], Prio);
    forall i, j | 0 <= i < j < |z.waiters| ensures Ahead(z, z.waiters[i], z.waiters[j]) {
      WaitAhead(s, z, t, k, i, j);
    }
    InsertNoDup(s.waiters, k, t);
  }

  lemma WaitAhead(s: State, z: State, t: nat, k: nat, i: nat, j: nat)
    requires Queued(s) && k <= |s.waiters| && t !in s.waiters && t in s.base
    requires forall l :: 0 <= l < k ==> s.waiters[l] in s.base && s.base[s.waiters[l]] <= s.base[t]
    requires forall l :: k <= l < |s.waiters| ==> s.waiters[l] in s.base && s.base[t] < s.base[s.waiters[l]]
    requires z.waiters == Insert(s.waiters, k, t) && z.base == s.base && z.stamp == s.stamp[t := s.clock]
    requires i < j <= |s.waiters|
    ensures Ahead(z, z.waiters[i], z.waiters[j])
  {
    hide Insert;
    InsertAt(s.waiters, k, t, i);
    InsertAt(s.waiters, k, t, j);
    if i == k {
      assert s.waiters[j - 1] in s.waiters;
    } else if j == k {
      assert s.waiters[i] in s.waiters;
    } else {
      var x, y := s.waiters[if i < k then i else i - 1], s.waiters[if j < k then j else j - 1];
      assert x in s.waiters && y in s.waiters && Ahead(s, x, y);
    }
  }

  lemma WaitInherited(s: State, t: nat, k: nat)
    requires Inv(s) && t in s.prio && t !in s.waiters && t != s.owner && s.owner >= 0 && s.owner in s.prio
    requires t in s.base && s.prio[t] == s.base[t] && k <= |s.waiters|
    requires forall j :: 0 <= j < k ==> s.waiters[j] in s.base && s.base[s.waiters[j]] <= s.base[t]
    requires forall j :: k <= j < |s.waiters| ==> s.waiters[j] in s.base && s.base[t] < s.base[s.waiters[j]]
    ensures Inherited(s.(prio := Boost(s, s.prio[t]), waiters := Insert(s.waiters, k, t)))
  {
    var z := s.(prio := Boost(s, s.prio[t]), waiters := Insert(s.waiters, k, t));
    InsertNoDup(s.waiters, k, t);
    assert z.waiters[0] == if k == 0 then t else s.waiters[0];
    if k > 0 { assert s.waiters[0] in s.waiters; }
  }

  lemma TimeoutInv(s: State, k: nat)
    requires Inv(s) && k < |s.waiters|
    ensures Inv(Next(s, Timeout(k)))
  {
    var z := Next(s, Timeout(k));
    RemoveNoDup(s.waiters, k);
    TimeoutQueued(s, k);
    hide Queued, Remove, NoDup;
  }

  lemma TimeoutQueued(s: State, k: nat)
    requires Queued(s) && k < |s.waiters|
    ensures Queued(Next(s, Timeout(k)))
  {
    var z := Next(s, Timeout(k));
    RemovedWaited(s, k);
    forall i, j | 0 <= i < j < |z.waiters| ensures Ahead(z, z.waiters[i], z.waiters[j]) {
      assert z.waiters[i] == s.waiters[if i < k then i else i + 1]
        && z.waiters[j] == s.waiters[if j < k then j else j + 1];
      assert Ahead(s, z.waiters[i], z.waiters[j]);
    }
  }

  lemma ReleaseInv(s: State, t: nat)
    requires Inv(s) && Enabled(s, Release(t))
    ensures Inv(ReleaseStep(s, t).0)
  {
    if t == s.owner && s.hold == 1 && s.waiters != [] {
      HandOverInv(s, t);
    }
  }

  lemma HandOverInv(s: State, t: nat)
    requires Inv(s) && t in s.prio && t == s.owner && s.hold == 1 && s.waiters != []
    ensures Inv(ReleaseStep(s, t).0)
  {
    var z, heir := ReleaseStep(s, t).0, s.waiters[0];
    assert heir in s.waiters;
    FirstOrRest(s.waiters);
    forall i, j | 0 <= i < j < |z.waiters| ensures Ahead(z, z.waiters[i], z.waiters[j]) {
      assert Ahead(s, s.waiters[i + 1], s.waiters[j + 1]);
    }
    forall i | 0 <= i < |z.waiters| ensures Ahead(s, heir, z.waiters[i]) {
      assert z.waiters[i] == s.waiters[i + 1];
    }
  }

  // ----- main results -----

  ghost predicate Run(states: seq<State>, steps: seq<Step>) {
    && |states| == |steps| + 1
    && Fresh(states[0])
    && forall i :: 0 <= i < |steps| ==> Enabled(states[i], steps[i]) && states[i + 1] == Next(states[i], steps[i])
  }

  /** The protocol holds over every run of takes, releases and timeouts; in particular the owner is at least as
      urgent as every waiter, and everybody else runs at its own priority. */
  lemma {:induction false} RunInv(states: seq<State>, steps: seq<Step>, i: nat)
    requires Run(states, steps) && i < |states|
    ensures Inv(states[i])
    ensures var s := states[i];
            && (forall t :: t in s.waiters ==>
               s.owner >= 0 && s.owner in s.prio && t in s.prio && s.prio[s.owner] <= s.prio[t])
            && (forall t :: t in s.prio && t in s.base && t != s.owner ==> s.prio[t] == s.base[t])
  {
    if i == 0 {
      FreshInv(states[0]);
    } else {
      hide Inv, Next, Enabled, Fresh;
      RunInv(states, steps, i - 1);
      StepInv(states[i - 1], steps[i - 1]);
      UrgentOwner(states[i]);
    }
  }

  lemma UrgentOwner(s: State)
    requires Inv(s)
    ensures forall t :: t in s.waiters ==>
            s.owner >= 0 && s.owner in s.prio && t in s.prio && s.prio[s.owner] <= s.prio[t]
    ensures forall t :: t in s.prio && t in s.base && t != s.owner ==> s.prio[t] == s.base[t]
  {
    hide Queued;
    if s.waiters != [] {
      assert s.waiters[0] in s.waiters;
    }
  }

  // ----- the recursion depth -----

  /** What the calls of a run returned. */
  ghost predicate Returned(states: seq<State>, steps: seq<Step>, outcomes: seq<Outcome>) {
    && Run(states, steps) && |outcomes| == |steps|
    && forall i :: 0 <= i < |steps| ==> outcomes[i] == Outcomes(states[i], steps[i]).1
  }

  /** How often the present owner has the mutex, counted from the calls and what they returned: once when it gets it,
      once more for each take of its own that succeeded, once less for each release. */
  ghost function Depth(states: seq<State>, steps: seq<Step>, outcomes: seq<Outcome>, i: nat): int
    requires i < |states| && i <= |steps| == |outcomes|
  {
    if i == 0 || states[i].owner == NOBODY then 0
    else if states[i].owner != states[i - 1].owner then 1
    else Depth(states, steps, outcomes, i - 1) + Deeper(states[i].owner, steps[i - 1], outcomes[i - 1])
  }

  function Deeper(owner: int, step: Step, o: Outcome): int {
    match step
    case Take(t, _) => if t == owner && o == Done then 1 else 0
    case Release(t) => if t == owner && o == Done then -1 else 0
    case Timeout(_) => 0
  }

  /** Over every run `hold` is that depth. */
  lemma {:induction false} RunDepth(states: seq<State>, steps: seq<Step>, outcomes: seq<Outcome>, i: nat)
    requires Returned(states, steps, outcomes) && i < |states|
    ensures states[i].hold == Depth(states, steps, outcomes, i)
  {
    if i > 0 {
      hide Queued, Inherited, Place;
      RunDepth(states, steps, outcomes, i - 1);
      RunInv(states, steps, i - 1);
      RunInv(states, steps, i);
      assert states[i - 1 + 1] == Next(states[i - 1], steps[i - 1]) && Enabled(states[i - 1], steps[i - 1]);
      assert outcomes[i - 1] == Outcomes(states[i - 1], steps[i - 1]).1;
      StepHold(states[i - 1], steps[i - 1]);
    }
  }

  lemma StepHold(s: State, step: Step)
    requires Inv(s) && Enabled(s, step)
    ensures var (z, o) := Outcomes(s, step);
            && (z.owner == NOBODY ==> z.hold == 0)
            && (z.owner != NOBODY && z.owner != s.owner ==> z.hold == 1)
            && (z.owner != NOBODY && z.owner == s.owner ==> z.hold == s.hold + Deeper(s.owner, step, o))
  {
    hide Queued, Inherited, Place;
  }

  /** Over every run the owner loses the mutex exactly when it releases it at depth 1; it then goes to the first
      waiter, or to nobody. */
  lemma ChangesHandsIff(states: seq<State>, steps: seq<Step>, outcomes: seq<Outcome>, i: nat)
    requires Returned(states, steps, outcomes) && i < |steps| && states[i].owner != NOBODY
    ensures var s, z := states[i], states[i + 1];
            && s.owner >= 0
            && (z.owner != s.owner <==> steps[i] == Release(s.owner) && Depth(states, steps, outcomes, i) == 1)
            && (z.owner != s.owner ==> z.owner == if s.waiters == [] then NOBODY else s.waiters[0])
            && (z.owner != s.owner ==> z.waiters == if s.waiters == [] then [] else s.waiters[1..])
  {
    hide Queued, Inherited, Place;
    RunDepth(states, steps, outcomes, i);
    RunInv(states, steps, i);
    assert states[i + 1] == Next(states[i], steps[i]) && Enabled(states[i], steps[i]);
    if states[i].waiters != [] { assert states[i].waiters[0] in states[i].waiters; }
  }

  /** What the calls return, over every run. */
  lemma RunOutcomes(states: seq<State>, steps: seq<Step>, outcomes: seq<Outcome>, i: nat)
    requires Returned(states, steps, outcomes) && i < |steps|
    ensures var owner := states[i].owner;
            match steps[i]
            case Take(t, wait) =>
              outcomes[i] == (if owner == t then (if Depth(states, steps, outcomes, i) < HOLD_MAX then Done
                else Overflow)
                              else if owner == NOBODY then Done else if wait then Suspended else TimedOut)
            case Release(t) => outcomes[i] == if owner == t then Done else NotOwner
            case Timeout(_) => outcomes[i] == TimedOut
  {
    hide Queued, Inherited, Place;
    RunDepth(states, steps, outcomes, i);
    RunInv(states, steps, i);
    assert Enabled(states[i], steps[i]);
  }

  /** Thread 0 takes the mutex twice and releases it once: it still owns it. */
  lemma TakenTwiceReleasedOnce() returns (states: seq<State>, steps: seq<Step>, outcomes: seq<Outcome>)
    ensures Returned(states, steps, outcomes)
    ensures steps == [Take(0, true), Take(0, true), Release(0)] && outcomes == [Done, Done, Done]
    ensures states[2].hold == 2 && states[3].hold == 1 && states[3].owner == 0 && states[3].value == 0
  {
    var own := map[0 := 10];
    steps, outcomes := [Take(0, true), Take(0, true), Release(0)], [Done, Done, Done];
    var a := State(1, NOBODY, 0, NO_PRIORITY, [], own, own, map[], 0);
    var b := a.(value := 0, owner := 0, hold := 1, original := 10);
    states := [a, b, b.(hold := 2), b];
  }

  // ----- who waits -----

  /** The step takes thread t off the list: the last release hands the mutex to it, or it times out. */
  predicate Leaves(s: State, step: Step, t: nat) {
    match step
    case Release(u) => u == s.owner && s.hold == 1 && s.waiters != [] && s.waiters[0] == t
    case Timeout(k) => k < |s.waiters| && s.waiters[k] == t
    case Take(_, _) => false
  }

  lemma StepWaits(s: State, step: Step, t: nat, u: nat)
    requires Inv(s) && Enabled(s, step) && !Leaves(s, step, t) && !Leaves(s, step, u)
    ensures StillWait(s.waiters, Next(s, step).waiters, t, u)
  {
    hide Precedes, Place, Queued, Inherited;
    match step {
      case Take(x, wait) =>
        if s.owner != x && s.value == 0 && wait {
          InsertStays(s.waiters, Place(s.waiters, Reader(Boost(s, s.prio[x])), s.prio[x], Prio), x, t, u);
        }
      case Release(x) => if s.waiters != [] && x == s.owner && s.hold == 1 { RestStays(s.waiters, t, u); }
      case Timeout(k) => RemoveStays(s.waiters, k, t, u);
    }
  }

  /** Over every run: threads that wait go on waiting, in the same order, until each gets the mutex as the first of the
      list or times out.  With t == u this says that no waiting thread is forgotten. */
  lemma {:induction false} WaitersStay(states: seq<State>, steps: seq<Step>, i: nat, j: nat, t: nat, u: nat)
    requires Run(states, steps) && i <= j < |states|
    requires t in states[i].waiters && u in states[i].waiters
    requires forall k :: i <= k < j ==> !Leaves(states[k], steps[k], t) && !Leaves(states[k], steps[k], u)
    ensures t in states[j].waiters && u in states[j].waiters
    ensures Precedes(states[i].waiters, t, u) ==> Precedes(states[j].waiters, t, u)
  {
    hide Next, Enabled, Fresh, Precedes, Leaves, Inv;
    if i < j {
      WaitersStay(states, steps, i, j - 1, t, u);
      RunInv(states, steps, j - 1);
      assert states[j - 1 + 1] == Next(states[j - 1], steps[j - 1]) && Enabled(states[j - 1], steps[j - 1]);
      StepWaits(states[j - 1], steps[j - 1], t, u);
    }
  }

  // ----- the boost -----

  /** The threads that began to wait since the present owner got the mutex. */
  ghost function Asked(states: seq<State>, steps: seq<Step>, i: nat): set<nat>
    requires i < |states| && i <= |steps|
  {
    if i == 0 || states[i].owner != states[i - 1].owner then {}
    else Asked(states, steps, i - 1) + AskedNow(states[i - 1], steps[i - 1])
  }

  /** The thread a step puts on the list. */
  ghost function AskedNow(s: State, step: Step): set<nat> {
    if step.Take? && step.wait && s.owner != step.t && s.value == 0 then {step.t} else {}
  }

  /** The owner runs at the most urgent of its own priority and those of the threads that asked, whether they still
      wait or not; the threads that have waited longer ask for nothing more. */
  ghost predicate Called(s: State, asked: set<nat>) {
    s.owner >= 0 && s.owner in s.prio && s.owner in s.base ==>
      && (forall t :: t in asked ==> t in s.base && s.prio[s.owner] <= s.base[t])
      && (s.prio[s.owner] == s.base[s.owner] || exists t :: t in asked && t in s.base && s.prio[s.owner] == s.base[t])
      && (forall t :: t in s.waiters && t !in asked ==> t in s.base && s.base[s.owner] <= s.base[t])
  }

  /** Over every run the owner's priority is exactly the one called for since it got the mutex. */
  lemma {:induction false} RunCalled(states: seq<State>, steps: seq<Step>, i: nat)
    requires Run(states, steps) && i < |states|
    ensures Called(states[i], Asked(states, steps, i))
  {
    if i > 0 {
      hide Inv, Next, Enabled, Fresh, Called, AskedNow;
      RunCalled(states, steps, i - 1);
      RunInv(states, steps, i - 1);
      var s, step, asked := states[i - 1], steps[i - 1], Asked(states, steps, i - 1);
      assert states[i - 1 + 1] == Next(s, step) && Enabled(s, step);
      if states[i].owner != s.owner {
        NewOwnerCalled(s, step);
      } else {
        SameOwnerCalled(s, step, asked);
      }
    }
  }

  /** A thread that gets the mutex runs at its own priority, and those it leaves waiting are no more urgent. */
  lemma NewOwnerCalled(s: State, step: Step)
    requires Inv(s) && Enabled(s, step) && Next(s, step).owner != s.owner
    ensures Called(Next(s, step), {})
  {
    hide Inherited, Place;
    var z := Next(s, step);
    if step.Release? && s.waiters != [] {
      FirstOrRest(s.waiters);
      LastRelease(s, step.t);
    }
  }

  lemma SameOwnerCalled(s: State, step: Step, asked: set<nat>)
    requires Inv(s) && Enabled(s, step) && Next(s, step).owner == s.owner && Called(s, asked)
    ensures Called(Next(s, step), asked + AskedNow(s, step))
  {
    hide Queued, Inherited, Place, NoDup;
    match step {
      case Take(t, wait) =>
        if s.owner != t && s.value == 0 && wait { WaitCalled(s, t, asked); }
      case Release(t) =>
      case Timeout(k) =>
        RemovedWaited(s, k);
    }
  }

  lemma RemovedWaited(s: State, k: nat)
    requires k < |s.waiters|
    ensures forall t :: t in Remove(s.waiters, k) ==> t in s.waiters
  {
  }

  lemma WaitCalled(s: State, t: nat, asked: set<nat>)
    requires Inv(s) && Enabled(s, Take(t, true)) && s.owner != t && s.value == 0 && Called(s, asked)
    ensures Called(TakeStep(s, t, true).0, asked + {t})
  {
    hide Queued, Inherited, Place, Reader;
    var z := TakeStep(s, t, true).0;
    var k := Place(s.waiters, Reader(Boost(s, s.prio[t])), s.prio[t], Prio);
    InsertNoDup(s.waiters, k, t);
    assert t in asked + {t};
    if z.prio[s.owner] == s.prio[s.owner] && s.prio[s.owner] != s.base[s.owner] {
      var u :| u in asked && u in s.base && s.prio[s.owner] == s.base[u];
      assert u in asked + {t};
    }
  }

  /** A thread asked for the mutex and left; it was more urgent than the owner is by itself and than every waiter. */
  ghost predicate LeftBehind(s: State, t: nat, asked: set<nat>)
    requires s.owner >= 0 && s.owner in s.base
  {
    && t in asked && t !in s.waiters && t in s.base
    && s.base[t] < s.base[s.owner] && forall u :: u in s.waiters && u in s.base ==> s.base[t] < s.base[u]
  }

  /** The priority the owner needs: its own or that of the most urgent waiter. */
  ghost function Due(s: State): nat
    requires s.owner >= 0 && s.owner in s.base && (s.waiters != [] ==> s.waiters[0] in s.base)
  {
    if s.waiters == [] then s.base[s.owner] else Min(s.base[s.owner], s.base[s.waiters[0]])
  }

  /** Over every run: the owner is never less urgent than it needs to be; and it is more urgent, or, which is the
      same, more urgent than by itself and than every waiter, iff a thread that asked for the mutex since the owner
      got it, and gave up, was more urgent than the owner by itself and than every waiter. */
  lemma BoostOutlivesIff(states: seq<State>, steps: seq<Step>, i: nat)
    requires Run(states, steps) && i < |states| && states[i].owner != NOBODY
    ensures var s := states[i];
            && s.owner >= 0 && s.owner in s.prio && s.owner in s.base && (s.waiters != [] ==> s.waiters[0] in s.base)
            && s.prio[s.owner] <= Due(s)
            && (s.prio[s.owner] < Due(s) <==> exists t :: LeftBehind(s, t, Asked(states, steps, i)))
            && (s.prio[s.owner] < Due(s) <==>
                  && s.prio[s.owner] < s.base[s.owner]
                  && forall u :: u in s.waiters && u in s.base ==> s.prio[s.owner] < s.base[u])
  {
    hide Asked;
    RunInv(states, steps, i);
    RunCalled(states, steps, i);
    CalledIff(states[i], Asked(states, steps, i));
  }

  lemma CalledIff(s: State, asked: set<nat>)
    requires Inv(s) && s.owner != NOBODY && Called(s, asked)
    ensures s.owner >= 0 && s.owner in s.prio && s.owner in s.base && (s.waiters != [] ==> s.waiters[0] in s.base)
    ensures s.prio[s.owner] <= Due(s)
    ensures s.prio[s.owner] < Due(s) <==> exists t :: LeftBehind(s, t, asked)
    ensures s.prio[s.owner] < Due(s) <==>
              && s.prio[s.owner] < s.base[s.owner]
              && forall u :: u in s.waiters && u in s.base ==> s.prio[s.owner] < s.base[u]
  {
    hide NoDup;
    if s.waiters != [] {
      assert s.waiters[0] in s.waiters;
      MostUrgentFirst(s);
    }
    hide Queued;
    if s.prio[s.owner] < Due(s) {
      var t :| t in asked && t in s.base && s.prio[s.owner] == s.base[t];
      assert LeftBehind(s, t, asked);
    }
  }

  lemma MostUrgentFirst(s: State)
    requires Queued(s) && s.waiters != []
    ensures s.waiters[0] in s.base && forall u :: u in s.waiters && u in s.base ==> s.base[s.waiters[0]] <= s.base[u]
  {
    assert s.waiters[0] in s.waiters;
    forall u | u in s.waiters && u in s.base ensures s.base[s.waiters[0]] <= s.base[u] {
      var j :| 0 <= j < |s.waiters| && s.waiters[j] == u;
      if j > 0 { assert Ahead(s, s.waiters[0], s.waiters[j]); }
    }
  }

  /** Thread 0, of priority 10, takes the mutex; thread 1, of priority 5, waits for it and gives up. Thread 0 keeps
      priority 5 with nobody waiting, until it releases the mutex. */
  lemma BoostOutlivesWaiter() returns (states: seq<State>, steps: seq<Step>)
    ensures Run(states, steps) && steps == [Take(0, true), Take(1, true), Timeout(0), Release(0)]
    ensures states[2].owner == 0 && states[2].waiters == [1] && states[2].prio == map[0 := 5, 1 := 5]
    ensures states[3].owner == 0 && states[3].waiters == [] && states[3].prio == map[0 := 5, 1 := 5]
    ensures states[3].base == map[0 := 10, 1 := 5]
    ensures states[4].owner == NOBODY && states[4].prio == map[0 := 10, 1 := 5]
  {
    hide TakeStep, ReleaseStep;
    var own, boosted := map[0 := 10, 1 := 5], map[0 := 5, 1 := 5];
    steps := [Take(0, true), Take(1, true), Timeout(0), Release(0)];
    var a := State(1, NOBODY, 0, NO_PRIORITY, [], own, own, map[], 0);
    var b := State(0, 0, 1, 10, [], own, own, map[], 0);
    var c := State(0, 0, 1, 10, [1], boosted, own, map[1 := 0], 1);
    var d := c.(waiters := []);
    states := [a, b, c, d, State(1, NOBODY, 0, NO_PRIORITY, [], own, own, map[1 := 0], 1)];
    OnlyTake(a, 0);
    FirstWaits(b, 1);
    assert Remove([1], 0) == [];
    OnlyRelease(d, 0);
    assert boosted[0 := 10] == own && own[0 := 5] == boosted;
  }

  lemma OnlyTake(s: State, t: nat)
    requires t in s.prio && s.owner != t && s.value > 0 && s.hold == 0
    ensures TakeStep(s, t, true).0 == s.(value := s.value - 1, owner := t, hold := 1, original := s.prio[t])
  {
  }

  lemma FirstWaits(s: State, t: nat)
    requires t in s.prio && s.owner >= 0 && s.owner in s.prio && s.owner != t && s.value == 0 && s.waiters == []
    requires s.prio[t] < s.prio[s.owner]
    ensures TakeStep(s, t, true).0
            == s.(prio := s.prio[s.owner := s.prio[t]], waiters := [t], stamp := s.stamp[t := s.clock],
              clock := s.clock + 1)
  {
    assert Insert([], 0, t) == [t];
  }

  lemma OnlyRelease(s: State, t: nat)
    requires t in s.prio && s.owner == t && s.hold == 1 && s.waiters == [] && s.value == 0
    ensures ReleaseStep(s, t).0
            == s.(value := 1, owner := NOBODY, hold := 0, original := NO_PRIORITY, prio := s.prio[t := s.original])
  {
  }

  /** The last release restores the owner's own priority and hands the mutex to the most urgent waiter, the
      earliest among equals; without waiters the mutex is free again. */
  lemma LastRelease(s: State, t: nat)
    requires Inv(s) && t in s.prio && t == s.owner && s.hold == 1
    ensures var (z, o) := ReleaseStep(s, t);
            && o == Done && t in z.prio && t in s.base && z.prio[t] == s.base[t]
            && (s.waiters == [] ==> z.owner == NOBODY && z.value == 1 && z.hold == 0)
            && (s.waiters != [] ==>
                  && z.owner in s.waiters && z.value == 0 && z.hold == 1 && z.waiters == s.waiters[1..]
                  && (forall u :: u in s.waiters && u != z.owner ==> Ahead(s, z.owner, u)))
  {
    if s.waiters != [] {
      var heir := s.waiters[0];
      forall u | u in s.waiters && u != heir ensures Ahead(s, heir, u) {
        var j :| 0 <= j < |s.waiters| && s.waiters[j] == u;
        assert j > 0;
      }
    }
  }

  /** Of the overflow returns only the recursion bound can be reached, and it changes nothing: the other
      three tests never fail. */
  lemma OverflowIff(s: State, step: Step)
    requires Inv(s) && Enabled(s, step)
    ensures Outcomes(s, step).1 == Overflow <==> step.Take? && step.t == s.owner && s.hold == HOLD_MAX
    ensures Outcomes(s, step).1 == Overflow ==> Next(s, step) == s
  {
    hide Queued, Inherited, Place;
  }

  class MutexObject {
    var value: nat
    var owner: int
    var hold: nat
    var originalPriority: nat
    var waiters: seq<nat>
    var currentPriority: map<nat, nat>   // of every thread
    ghost var s: State

    ghost predicate Valid()
      reads this
    {
      && Inv(s)
      && value == s.value && owner == s.owner && hold == s.hold && originalPriority == s.original
      && waiters == s.waiters && currentPriority == s.prio
    }

    /** rt_mutex_init. */
    constructor (prio: map<nat, nat>)
      ensures Valid() && Fresh(s) && s.base == prio
    {
      value, owner, hold, originalPriority := 1, NOBODY, 0, NO_PRIORITY;
      waiters, currentPriority := [], prio;
      s := State(1, NOBODY, 0, NO_PRIORITY, [], prio, prio, map[], 0);
      new;
      FreshInv(s);
    }

    /** The region of rt_mutex_take. */
    method Take(t: nat, wait: bool) returns (o: Outcome)
      requires Valid() && Enabled(s, Step.Take(t, wait))
      modifies this
      ensures Valid() && (s, o) == old(Outcomes(s, Step.Take(t, wait)))
      ensures o == (if old(owner) == t then (if old(hold) < HOLD_MAX then Done else Overflow)
                    else if old(owner) == NOBODY then Done else if wait then Suspended else TimedOut)
      ensures hold == if o == Done then old(hold) + 1 else old(hold)
      ensures owner == if o == Done then t else old(owner)
      ensures o == Done && old(owner) == NOBODY ==> t in currentPriority && originalPriority == currentPriority[t]
      ensures o == Suspended ==> TookPlace(old(waiters), waiters, t, Reader(currentPriority), Prio)
      ensures o != Suspended ==> waiters == old(waiters) && currentPriority == old(currentPriority)
      ensures o == Suspended ==>
                && owner >= 0 && owner in old(currentPriority) && t in old(currentPriority)
                && currentPriority == old(currentPriority)[owner := Min(old(currentPriority)[owner],
                   old(currentPriority)[t])]
    {
      hide Inv, Place, TookPlace, Insert, Ahead;
      StepInv(s, Step.Take(t, wait));
      OwnerKnown(s);
      if owner == t {
        if hold < HOLD_MAX {
          hold := hold + 1;
          o := Done;
        } else {
          o := Overflow;
        }
      } else if value > 0 {
        value := value - 1;
        owner := t;
        originalPriority := currentPriority[t];
        if hold < HOLD_MAX {
          hold := hold + 1;
          o := Done;
        } else {
          o := Overflow;
        }
      } else if !wait {
        o := TimedOut;
      } else {
        if currentPriority[t] < currentPriority[owner] {
          currentPriority := currentPriority[owner := currentPriority[t]];
        }
        SuspendTakesPlace(waiters, Reader(currentPriority), t, Prio);
        var pos := FindPlace(waiters, Reader(currentPriority), currentPriority[t], Prio);
        waiters := Insert(waiters, pos, t);
        o := Suspended;
      }
      s := Next(s, Step.Take(t, wait));
    }

    /** rt_mutex_release. */
    method Release(t: nat) returns (o: Outcome)
      requires Valid() && Enabled(s, Step.Release(t))
      modifies this
      ensures Valid() && (s, o) == old(Outcomes(s, Step.Release(t)))
      ensures o == if old(owner) == t then Done else NotOwner
      ensures o == NotOwner ==> unchanged(this)
      ensures o == Done && old(hold) > 1 ==>
                hold == old(hold) - 1 && owner == t && waiters == old(waiters)
                  && currentPriority == old(currentPriority)
      ensures o == Done && old(hold) == 1 ==>
                && currentPriority == old(currentPriority)[t := old(originalPriority)]
                && waiters == (if old(waiters) == [] then [] else old(waiters)[1..])
                && owner == (if old(waiters) == [] then NOBODY else old(waiters)[0])
                && hold == (if old(waiters) == [] then 0 else 1) && value == if old(waiters) == [] then 1 else 0
    {
      hide Inv;
      StepInv(s, Step.Release(t));
      OwnerKnown(s);
      if t != owner {
        return NotOwner;
      }
      hold := hold - 1;
      if hold == 0 {
        if originalPriority != currentPriority[owner] {
          currentPriority := currentPriority[owner := originalPriority];
        }
        o := PassOn();
      } else {
        o := Done;
      }
      s := Next(s, Step.Release(t));
    }

    /** The part of rt_mutex_release after the owner's priority is restored. */
    method PassOn() returns (o: Outcome)
      requires forall u :: u in waiters ==> u in currentPriority
      modifies `owner, `originalPriority, `hold, `waiters, `value
      ensures var z := HandOver(State(old(value), old(owner), old(hold), old(originalPriority), old(waiters),
              currentPriority, map[], map[], 0));
              value == z.0.value && owner == z.0.owner && hold == z.0.hold && originalPriority == z.0.original
                && waiters == z.0.waiters && o == z.1
    {
      if waiters != [] {
        var thread := waiters[0];
        assert thread in waiters;
        owner := thread;
        originalPriority := currentPriority[thread];
        if hold < HOLD_MAX {
          hold := hold + 1;
        } else {
          return Overflow;
        }
        waiters := waiters[1..];
      } else {
        if value < VALUE_MAX {
          value := value + 1;
        } else {
          return Overflow;
        }
        owner := NOBODY;
        originalPriority := NO_PRIORITY;
      }
      o := Done;
    }

    /** A waiter's timer runs out: rt_thread_timeout takes it off the list. */
    method TimeOut(k: nat)
      requires Valid() && k < |waiters|
      modifies this
      ensures Valid() && s == old(Next(s, Timeout(k)))
      ensures waiters == old(waiters)[..k] + old(waiters)[k + 1..]
      ensures owner == old(owner) && hold == old(hold) && currentPriority == old(currentPriority)
    {
      hide Inv;
      StepInv(s, Timeout(k));
      waiters := Remove(waiters, k);
      s := Next(s, Timeout(k));
    }
  }

  lemma OwnerKnown(s: State)
    requires Inv(s)
    ensures s.owner == NOBODY || (s.owner >= 0 && s.owner in s.prio)
    ensures s.value <= 1 && (s.value == 1 <==> s.owner == NOBODY) && (s.hold == 0 <==> s.owner == NOBODY)
    ensures forall u :: u in s.waiters ==> u in s.prio
  {
  }
}
