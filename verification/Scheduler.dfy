/** The uniprocessor scheduler of scheduler.c with 32 priorities, the state changes thread.c makes through it,
    and the time slices of clock.c. */
module Scheduler {
  import opened Bitmap
  import opened WaitList

  const PRIORITIES: nat := 32      // RT_THREAD_PRIORITY_MAX

  datatype Stat = Ready | Suspended | Running | Closed

  /** stat, current_priority, remaining_tick, init_tick and the YIELD flag of stat. */
  datatype Thread = Thread(stat: Stat, prio: nat, remaining: nat, init: nat, yielded: bool)

  datatype State = State(
    threads: map<nat, Thread>,
    ready: seq<seq<nat>>,      // rt_thread_priority_table
    group: nat,                // rt_thread_ready_priority_group
    current: nat,              // rt_current_thread
    lock: nat                  // rt_scheduler_lock_nest
  )

  /** rt_list_remove: nothing happens for a thread that is not listed. */
  function Without(list: seq<nat>, t: nat): (rest: seq<nat>)
    ensures forall u :: u in rest ==> u in list
  {
    if list == [] then [] else if list[0] == t then list[1..] else [list[0]] + Without(list[1..], t)
  }

  predicate Known(s: State, t: nat) {
    t in s.threads && s.threads[t].prio < |s.ready|
  }

  function SetStat(s: State, t: nat, stat: Stat): State
    requires t in s.threads
  {
    s.(threads := s.threads[t := s.threads[t].(stat := stat)])
  }

  /** rt_schedule_insert_thread. */
  function Inserted(s: State, t: nat): (z: State)
    requires Known(s, t)
    ensures forall u :: Known(s, u) ==> Known(z, u)
  {
    if t == s.current then SetStat(s, t, Running)
    else
      var p := s.threads[t].prio;
      SetStat(s, t, Ready).(ready := s.ready[p := s.ready[p] + [t]], group := SetBit(s.group, p))
  }

  /** rt_schedule_remove_thread. */
  function Removed(s: State, t: nat): (z: State)
    requires Known(s, t)
    ensures forall u :: Known(s, u) ==> Known(z, u)
  {
    var p := s.threads[t].prio;
    var list := Without(s.ready[p], t);
    s.(ready := s.ready[p := list], group := if list == [] then ClearBit(s.group, p) else s.group)
  }

  /** The most urgent priority with a ready thread; |ready| if there is none. */
  function Top(ready: seq<seq<nat>>): (p: nat)
    ensures p <= |ready| && (p < |ready| ==> ready[p] != []) && forall q :: 0 <= q < p ==> ready[q] == []
  {
    if ready == [] || ready[0] != [] then 0 else 1 + Top(ready[1..])
  }

  /** The current thread keeps the processor against ready threads of priority `top`. */
  predicate Stays(cur: Thread, top: nat) {
    cur.stat == Running && (cur.prio < top || (cur.prio == top && !cur.yielded))
  }

  /** rt_schedule. */
  ghost function Scheduled(s: State): State
    requires ScheduleReady(s)
  {
    if s.lock != 0 || Top(s.ready) == |s.ready| then s
    else
      var cur, to := s.threads[s.current], s.ready[Top(s.ready)][0];
      assert to in s.ready[Top(s.ready)] && Known(s, to);
      if Stays(cur, Top(s.ready)) then
        SetStat(Removed(ClearYield(s), s.current), s.current, Running)
      else if cur.stat == Running then
        Enter(Inserted(ClearYield(s).(current := to), s.current), to)
      else
        Enter(s.(current := to), to)
  }

  /** Neither the current thread nor any listed one is unknown. */
  ghost predicate ScheduleReady(s: State) {
    Known(s, s.current) && forall p :: 0 <= p < |s.ready| ==> forall t :: t in s.ready[p] ==> Known(s, t)
  }

  function ClearYield(s: State): (z: State)
    requires Known(s, s.current)
    ensures forall u :: Known(s, u) <==> Known(z, u)
  {
    s.(threads := s.threads[s.current := s.threads[s.current].(yielded := false)])
  }

  /** The new current thread leaves the ready list and runs. */
  function Enter(s: State, to: nat): State
    requires Known(s, to)
  {
    SetStat(Removed(s, to), to, Running)
  }

  // ----- the ready queue -----

  /** Each ready thread is on exactly the list of its priority, once; bits mark the nonempty lists. */
  ghost predicate Queues(s: State) {
    && |s.ready| == PRIORITIES && s.group < Pow2(PRIORITIES)
    && (forall t :: t in s.threads ==> s.threads[t].prio < PRIORITIES)
    && (forall p: nat :: p < PRIORITIES ==> NoDup(s.ready[p]) && (Bit(s.group, p) <==> s.ready[p] != []))
    && (forall p: nat, t: nat :: p < PRIORITIES && t in s.ready[p] ==>
          t in s.threads && s.threads[t].prio == p && s.threads[t].stat == Ready)
    && (forall t :: t in s.threads && s.threads[t].stat == Ready ==> t in s.ready[s.threads[t].prio])
  }

  /** The current thread is on no list, and nobody else runs. */
  ghost predicate OneRuns(s: State) {
    && s.current in s.threads && s.threads[s.current].stat != Ready
    && forall t :: t in s.threads && s.threads[t].stat == Running ==> t == s.current
  }

  /** Time slices are never used up between steps. */
  ghost predicate Slices(s: State) {
    forall t :: t in s.threads ==> 1 <= s.threads[t].remaining <= s.threads[t].init
  }

  ghost predicate Inv(s: State) {
    Queues(s) && OneRuns(s) && Slices(s)
  }

  lemma {:induction false} WithoutItems(list: seq<nat>, t: nat)
    requires NoDup(list)
    ensures NoDup(Without(list, t))
    ensures forall u :: u in Without(list, t) <==> u in list && u != t
    ensures t !in list ==> Without(list, t) == list
  {
    if list != [] {
      FirstOrRest(list);
      assert list[0] !in list[1..];
      if list[0] != t {
        WithoutItems(list[1..], t);
        var rest := Without(list[1..], t);
        assert forall u :: u in [list[0]] + rest <==> u == list[0] || u in rest;
        if t !in list { assert [list[0]] + list[1..] == list; }
      }
    }
  }

  /** A thread that is not ready and not current joins the list of its priority. */
  lemma InsertQueues(s: State, t: nat)
    requires Queues(s) && t in s.threads && s.threads[t].stat != Ready && t != s.current
    ensures Queues(Inserted(s, t))
  {
    hide SetBit, Pow2, Bit;
    var z, p := Inserted(s, t), s.threads[t].prio;
    SetBound(s.group, p, PRIORITIES);
    assert t !in s.ready[p];
    forall q: nat | q < PRIORITIES ensures NoDup(z.ready[q]) && (Bit(z.group, q) <==> z.ready[q] != []) {
      SetBitBits(s.group, p, q);
    }
  }

  /** A thread leaves its list, if it is on one, and gets a status other than ready. */
  lemma RemoveQueues(s: State, t: nat, stat: Stat)
    requires Queues(s) && t in s.threads && stat != Ready
    ensures Queues(SetStat(Removed(s, t), t, stat))
  {
    hide ClearBit, Pow2, Bit, Without;
    var z, p := SetStat(Removed(s, t), t, stat), s.threads[t].prio;
    ClearBound(s.group, p);
    WithoutItems(s.ready[p], t);
    forall q: nat | q < PRIORITIES ensures NoDup(z.ready[q]) && (Bit(z.group, q) <==> z.ready[q] != []) {
      ClearBitBits(s.group, p, q);
    }
  }

  /** A status or flag change that concerns no ready thread leaves the queues in order. */
  lemma SameQueues(s: State, z: State)
    requires Queues(s) && z.ready == s.ready && z.group == s.group && z.threads.Keys == s.threads.Keys
    requires forall t :: t in s.threads ==>
               && z.threads[t].prio == s.threads[t].prio
               && (z.threads[t].stat == Ready <==> s.threads[t].stat == Ready)
    ensures Queues(z)
  {
    hide Pow2, Bit;
  }

  lemma HeadReady(s: State)
    requires Queues(s) && Top(s.ready) < PRIORITIES
    ensures var to := s.ready[Top(s.ready)][0];
            to in s.threads && s.threads[to].prio == Top(s.ready) && s.threads[to].stat == Ready
  {
    assert s.ready[Top(s.ready)][0] in s.ready[Top(s.ready)];
  }

  // ----- rt_schedule -----

  lemma ScheduleCases(s: State)
    requires Inv(s)
    ensures ScheduleReady(s)
  {
    hide Pow2, Bit;
    forall p | 0 <= p < |s.ready| ensures forall t :: t in s.ready[p] ==> Known(s, t) {
      var q: nat := p;
    }
  }

  /** The current thread goes on. */
  ghost predicate GoesOn(s: State, z: State) {
    && s.current in s.threads && z.current == s.current
    && z.threads == s.threads[s.current := s.threads[s.current].(stat := Running, yielded := false)]
  }

  /** The first thread of the most urgent list takes over; a running thread goes to the end of its list. */
  ghost predicate TakesOver(s: State, z: State) {
    && s.current in s.threads && z.current in s.threads && z.current != s.current
    && z.threads == Handed(s.threads, s.current, z.current)
  }

  ghost function Handed(threads: map<nat, Thread>, from: nat, to: nat): map<nat, Thread>
    requires from in threads && to in threads
  {
    var f := threads[from];
    var now := if f.stat == Running then threads[from := f.(stat := Ready, yielded := false)] else threads;
    now[to := now[to].(stat := Running)]
  }

  lemma ScheduleSpec(s: State)
    requires Inv(s)
    ensures ScheduleReady(s)
    ensures var z, top := Scheduled(s), Top(s.ready);
            && z.lock == s.lock && Queues(z)
            && (s.lock != 0 || top == PRIORITIES ==> z == s)
            && (s.lock == 0 && top < PRIORITIES && Stays(s.threads[s.current], top) ==>
               GoesOn(s, z) && z.ready == s.ready)
            && (s.lock == 0 && top < PRIORITIES && !Stays(s.threads[s.current], top) ==>
                  && TakesOver(s, z) && z.current == s.ready[top][0]
                  && z.ready == Moved(s.ready, top, s.threads[s.current].prio, s.current,
                                     s.threads[s.current].stat == Running))
  {
    ScheduleCases(s);
    if s.lock == 0 && Top(s.ready) < PRIORITIES {
      if Stays(s.threads[s.current], Top(s.ready)) {
        StaySpec(s);
      } else {
        SwitchSpec(s);
      }
    }
  }

  /** The lists after a switch: `from` joins the end of its list if it was running, the head of list `top` leaves. */
  ghost function Moved(ready: seq<seq<nat>>, top: nat, p: nat, from: nat, insert: bool): seq<seq<nat>>
    requires top < |ready| && p < |ready| && ready[top] != []
  {
    var r := if insert then ready[p := ready[p] + [from]] else ready;
    r[top := r[top][1..]]
  }

  lemma StaySpec(s: State)
    requires Inv(s) && ScheduleReady(s) && s.lock == 0 && Top(s.ready) < PRIORITIES
             && Stays(s.threads[s.current], Top(s.ready))
    ensures var z := Scheduled(s);
            z.lock == s.lock && Queues(z) && GoesOn(s, z) && z.ready == s.ready
  {
    hide Queues, Without, Top;
    ListCount(s);
    var y := ClearYield(s);
    SameQueues(s, y);
    NotListed(s);
    WithoutItems(s.ready[s.threads[s.current].prio], s.current);
    RemoveQueues(y, s.current, Running);
  }

  lemma SwitchSpec(s: State)
    requires Inv(s) && ScheduleReady(s) && s.lock == 0 && Top(s.ready) < PRIORITIES
             && !Stays(s.threads[s.current], Top(s.ready))
    ensures var z, top := Scheduled(s), Top(s.ready);
            && z.lock == s.lock && Queues(z) && TakesOver(s, z) && z.current == s.ready[top][0]
            && z.ready == Moved(s.ready, top, s.threads[s.current].prio, s.current,
                               s.threads[s.current].stat == Running)
  {
    HeadReady(s);
    if s.threads[s.current].stat == Running { SwitchRunning(s); } else { SwitchGone(s); }
  }

  lemma SwitchGone(s: State)
    requires Inv(s) && ScheduleReady(s) && Top(s.ready) < PRIORITIES && s.threads[s.current].stat != Running
    requires s.ready[Top(s.ready)][0] in s.threads && s.threads[s.ready[Top(s.ready)][0]].prio == Top(s.ready)
    ensures var top, to := Top(s.ready), s.ready[Top(s.ready)][0];
            var z := Enter(s.(current := to), to);
            && Queues(z) && z.threads == Handed(s.threads, s.current, to)
            && z.ready == Moved(s.ready, top, s.threads[s.current].prio, s.current, false)
  {
    var to := s.ready[Top(s.ready)][0];
    SameQueues(s, s.(current := to));
    hide Queues;
    RemoveQueues(s.(current := to), to, Running);
    HeadLeaves(s.ready[Top(s.ready)], to);
  }

  lemma SwitchRunning(s: State)
    requires Inv(s) && ScheduleReady(s) && Top(s.ready) < PRIORITIES && s.threads[s.current].stat == Running
    requires s.ready[Top(s.ready)][0] in s.threads && s.threads[s.ready[Top(s.ready)][0]].prio == Top(s.ready)
    requires s.threads[s.ready[Top(s.ready)][0]].stat == Ready
    ensures var top, to := Top(s.ready), s.ready[Top(s.ready)][0];
            var z := Enter(Inserted(ClearYield(s).(current := to), s.current), to);
            && Queues(z) && z.threads == Handed(s.threads, s.current, to)
            && z.ready == Moved(s.ready, top, s.threads[s.current].prio, s.current, true)
  {
    hide Queues, Without;
    ListCount(s);
    var to := s.ready[Top(s.ready)][0];
    var y := ClearYield(s).(current := to);
    SameQueues(s, y);
    InsertQueues(y, s.current);
    var x := Inserted(y, s.current);
    RemoveQueues(x, to, Running);
    HeadLeaves(x.ready[Top(s.ready)], to);
  }

  lemma ListCount(s: State)
    requires Queues(s)
    ensures |s.ready| == PRIORITIES && forall t :: t in s.threads ==> s.threads[t].prio < PRIORITIES
  {
  }

  lemma HeadLeaves(list: seq<nat>, t: nat)
    requires list != [] && list[0] == t
    ensures Without(list, t) == list[1..]
  {
  }

  /** Threads that could use the processor. */
  ghost function Runnable(s: State): set<nat> {
    set t | t in s.threads && (s.threads[t].stat == Ready || s.threads[t].stat == Running)
  }

  /** After rt_schedule with the scheduler unlocked and some runnable thread, the current thread runs, no ready
      thread is more urgent, and the runnable threads are the same as before. */
  lemma ScheduleBest(s: State)
    requires Inv(s)
    ensures ScheduleReady(s) && Inv(Scheduled(s)) && Runnable(Scheduled(s)) == Runnable(s)
    ensures var z := Scheduled(s);
            s.lock == 0 && Runnable(s) != {} ==>
              && z.current in z.threads && z.threads[z.current].stat == Running
              && forall t :: t in z.threads && z.threads[t].stat == Ready ==>
                 z.threads[z.current].prio <= z.threads[t].prio
  {
    hide Queues, Scheduled, Runnable;
    ListCount(s);
    ScheduleSpec(s);
    TopIsBest(s);
    var z, top := Scheduled(s), Top(s.ready);
    if s.lock == 0 && top < PRIORITIES {
      HeadReady(s);
      if Stays(s.threads[s.current], top) { GoesOnBest(s, z); } else { HandedBest(s, z); }
    } else {
      NothingElse(s);
    }
  }

  lemma GoesOnBest(s: State, z: State)
    requires Inv(s) && GoesOn(s, z) && s.threads[s.current].stat == Running
    ensures OneRuns(z) && Slices(z) && Runnable(z) == Runnable(s)
  {
    hide Queues;
    assert forall t :: t in z.threads <==> t in s.threads;
  }

  lemma HandedBest(s: State, z: State)
    requires Inv(s) && TakesOver(s, z) && s.threads[z.current].stat == Ready
             && s.threads[z.current].prio == Top(s.ready)
    requires !Stays(s.threads[s.current], Top(s.ready))
    requires forall t :: t in s.threads && s.threads[t].stat == Ready ==> Top(s.ready) <= s.threads[t].prio
    ensures OneRuns(z) && Slices(z) && Runnable(z) == Runnable(s) && z.threads[z.current].stat == Running
    ensures forall t :: t in z.threads && z.threads[t].stat == Ready ==> z.threads[z.current].prio <= z.threads[t].prio
  {
    hide Queues;
    assert forall t :: t in z.threads <==> t in s.threads;
  }

  lemma NothingElse(s: State)
    requires Inv(s)
    ensures Runnable(s) != {} && Top(s.ready) == PRIORITIES ==> s.threads[s.current].stat == Running
    ensures Top(s.ready) == PRIORITIES ==> forall t :: t in s.threads ==> s.threads[t].stat != Ready
  {
    hide Pow2, Bit;
    TopIsBest(s);
    if Runnable(s) != {} {
      var t :| t in Runnable(s);
    }
  }

  lemma TopIsBest(s: State)
    requires Queues(s)
    ensures forall t :: t in s.threads && s.threads[t].stat == Ready ==> Top(s.ready) <= s.threads[t].prio
  {
    hide Pow2, Bit;
    forall t | t in s.threads && s.threads[t].stat == Ready ensures Top(s.ready) <= s.threads[t].prio {
      assert s.ready[s.threads[t].prio] != [];
    }
  }

  // ----- the steps -----

  datatype Step =
    | Startup(t: nat, p: nat, ticks: nat) | Exit | Close(t: nat)
    | Suspend(t: nat) | Resume(t: nat) | ChangePriority(t: nat, p: nat)
    | Tick | Yield | Lock | Unlock | Reschedule

  /** The calls whose own assertions hold; a thread that ended may be initialised and started anew. */
  predicate Enabled(s: State, step: Step) {
    match step
    case Startup(t, p, ticks) => p < PRIORITIES && 1 <= ticks && (t in s.threads ==> s.threads[t].stat == Closed)
    case Close(t) => t in s.threads
    case Suspend(t) => t in s.threads
    case Resume(t) => t in s.threads
    case ChangePriority(t, p) => t in s.threads && p < PRIORITIES
    case _ => true
  }

  /** rt_thread_startup up to rt_schedule: a thread with its initial priority and slice is marked suspended and
      resumed. */
  function Joined(s: State, t: nat, p: nat, ticks: nat): (z: State)
    requires p < |s.ready|
  {
    Inserted(Recorded(s, t, Thread(Suspended, p, ticks, ticks, false)), t)
  }

  function Recorded(s: State, t: nat, thread: Thread): State {
    s.(threads := s.threads[t := thread])
  }

  /** What _thread_exit, rt_thread_detach and rt_thread_delete do to a thread that has not ended yet. */
  function Gone(s: State, t: nat): State
    requires Known(s, t)
  {
    var z := Removed(s, t);
    Recorded(z, t, z.threads[t].(stat := Closed, yielded := false))
  }

  /** rt_thread_suspend; it refuses a thread that is neither ready nor running. */
  ghost function SuspendStep(s: State, t: nat): State
    requires Known(s, t)
  {
    if s.threads[t].stat == Ready || s.threads[t].stat == Running then SetStat(Removed(s, t), t, Suspended) else s
  }

  /** rt_thread_resume and rt_thread_timeout, as far as the scheduler is concerned. */
  ghost function ResumeStep(s: State, t: nat): State
    requires Known(s, t)
  {
    if s.threads[t].stat == Suspended then Inserted(s, t) else s
  }

  /** rt_thread_control with RT_THREAD_CTRL_CHANGE_PRIORITY. */
  ghost function PriorityStep(s: State, t: nat, p: nat): State
    requires Known(s, t) && p < |s.ready|
  {
    if s.threads[t].stat == Ready then
      var z := Removed(s, t);
      Inserted(z.(threads := z.threads[t := z.threads[t].(prio := p)]), t)
    else s.(threads := s.threads[t := s.threads[t].(prio := p)])
  }

  /** rt_tick_increase; the counter is unsigned and never 0 here. */
  ghost function TickStep(s: State): State
    requires ScheduleReady(s)
  {
    var c := s.threads[s.current];
    if c.remaining == 1 then
      Scheduled(s.(threads := s.threads[s.current := c.(remaining := c.init, yielded := true)]))
    else s.(threads := s.threads[s.current := c.(remaining := if c.remaining > 0 then c.remaining - 1 else 0)])
  }

  /** rt_thread_yield. */
  ghost function YieldStep(s: State): State
    requires ScheduleReady(s)
  {
    var c := s.threads[s.current];
    Scheduled(s.(threads := s.threads[s.current := c.(remaining := c.init, yielded := true)]))
  }

  /** Every thread the scheduler touches is known and has a priority with a list. */
  ghost predicate Addressable(s: State) {
    ScheduleReady(s) && |s.ready| == PRIORITIES && forall t :: t in s.threads ==> s.threads[t].prio < PRIORITIES
  }

  /** One call, uninterrupted. Out of an unaddressable state, where the source would follow a wild pointer, there
      is no step; no run gets there (RunInv). */
  ghost function Next(s: State, step: Step): State
    requires Enabled(s, step)
  {
    if !Addressable(s) then s else
    match step
    case Startup(t, p, ticks) =>
      JoinedReady(s, t, p, ticks);
      Scheduled(Joined(s, t, p, ticks))
    case Exit => Scheduled(Gone(s, s.current))
    case Close(t) => if s.threads[t].stat == Closed then s else Gone(s, t)
    case Suspend(t) => SuspendStep(s, t)
    case Resume(t) => ResumeStep(s, t)
    case ChangePriority(t, p) => PriorityStep(s, t, p)
    case Tick => TickStep(s)
    case Yield => YieldStep(s)
    case Lock => s.(lock := s.lock + 1)
    case Unlock =>
      var z := s.(lock := if s.lock > 0 then s.lock - 1 else 0);
      if z.lock == 0 then Scheduled(z) else z
    case Reschedule => Scheduled(s)
  }

  lemma JoinedReady(s: State, t: nat, p: nat, ticks: nat)
    requires Addressable(s) && p < PRIORITIES
    ensures ScheduleReady(Joined(s, t, p, ticks))
  {
    var y := Recorded(s, t, Thread(Suspended, p, ticks, ticks, false));
    assert forall u :: Known(s, u) ==> Known(y, u);
    assert Known(y, t);
  }

  lemma InvAddressable(s: State)
    requires Inv(s)
    ensures Addressable(s)
  {
    ScheduleCases(s);
  }

  lemma StepInv(s: State, step: Step)
    requires Inv(s) && Enabled(s, step)
    ensures Inv(Next(s, step))
  {
    hide Queues, Scheduled, Joined, Gone, Addressable;
    InvAddressable(s);
    ScheduleCases(s);
    ListCount(s);
    match step {
      case Startup(t, p, ticks) =>
        JoinedInv(s, t, p, ticks);
        ScheduleBest(Joined(s, t, p, ticks));
      case Exit =>
        GoneInv(s, s.current);
        ScheduleBest(Gone(s, s.current));
      case Close(t) => GoneInv(s, t);
      case Suspend(t) => RemoveQueues(s, t, Suspended);
      case Resume(t) => ResumeInv(s, t);
      case ChangePriority(t, p) => PriorityInv(s, t, p);
      case Tick => TickInv(s);
      case Yield => YieldInv(s);
      case Lock => SameQueues(s, Next(s, step));
      case Unlock =>
        var z := s.(lock := if s.lock > 0 then s.lock - 1 else 0);
        SameQueues(s, z);
        if z.lock == 0 { ScheduleBest(z); }
      case Reschedule => ScheduleBest(s);
    }
  }

  lemma JoinedInv(s: State, t: nat, p: nat, ticks: nat)
    requires Inv(s) && |s.ready| == PRIORITIES && Enabled(s, Startup(t, p, ticks))
    ensures Inv(Joined(s, t, p, ticks))
  {
    hide Queues;
    var thread := Thread(Suspended, p, ticks, ticks, false);
    RecordedQueues(s, t, thread);
    ResumeInv(Recorded(s, t, thread), t);
  }

  lemma GoneInv(s: State, t: nat)
    requires Inv(s) && Known(s, t)
    ensures Inv(Gone(s, t))
  {
    hide Queues, Without;
    RemoveQueues(s, t, Closed);
    SameQueues(SetStat(Removed(s, t), t, Closed), Gone(s, t));
  }

  lemma ResumeInv(s: State, t: nat)
    requires Inv(s) && Known(s, t)
    ensures Inv(ResumeStep(s, t))
  {
    hide Queues;
    if s.threads[t].stat == Suspended {
      if t == s.current {
        SameQueues(s, SetStat(s, t, Running));
      } else {
        InsertQueues(s, t);
      }
    }
  }

  lemma PriorityInv(s: State, t: nat, p: nat)
    requires Inv(s) && Known(s, t) && p < PRIORITIES == |s.ready|
    ensures Inv(PriorityStep(s, t, p))
  {
    hide Queues, Without;
    if s.threads[t].stat == Ready {
      RemoveQueues(s, t, Suspended);
      var z := SetStat(Removed(s, t), t, Suspended);
      var y := z.(threads := z.threads[t := z.threads[t].(prio := p)]);
      RecordedQueues(z, t, z.threads[t].(prio := p));
      InsertQueues(y, t);
      assert Inserted(y, t) == PriorityStep(s, t, p);
    } else {
      RecordedQueues(s, t, s.threads[t].(prio := p));
    }
  }

  /** What is noted of a thread that is not ready concerns no list. */
  lemma RecordedQueues(s: State, t: nat, thread: Thread)
    requires Queues(s) && (t in s.threads ==> s.threads[t].stat != Ready)
    requires thread.stat != Ready && thread.prio < PRIORITIES
    ensures Queues(Recorded(s, t, thread))
  {
    hide Pow2, Bit;
  }

  lemma TickInv(s: State)
    requires Inv(s) && ScheduleReady(s)
    ensures Inv(TickStep(s))
  {
    hide Queues, Scheduled;
    var c := s.threads[s.current];
    var y := s.(threads := s.threads[s.current := c.(remaining := c.init, yielded := true)]);
    if c.remaining == 1 {
      Refilled(s, y);
      ScheduleBest(y);
    } else {
      Counted(s);
    }
  }

  lemma Counted(s: State)
    requires Inv(s) && ScheduleReady(s) && s.threads[s.current].remaining > 1
    ensures Inv(TickStep(s))
  {
    hide Queues;
    SameQueues(s, TickStep(s));
  }

  lemma YieldInv(s: State)
    requires Inv(s) && ScheduleReady(s)
    ensures Inv(YieldStep(s))
  {
    hide Queues, Scheduled;
    var c := s.threads[s.current];
    var y := s.(threads := s.threads[s.current := c.(remaining := c.init, yielded := true)]);
    SameQueues(s, y);
    ScheduleBest(y);
  }

  // ----- from boot -----

  /** A thread handed to rt_thread_startup before the scheduler runs. */
  datatype Start = Start(t: nat, p: nat, ticks: nat)

  /** Every thread is started once; `nobody` stands for the null pointer rt_current_thread holds until then. */
  predicate Bootable(nobody: nat, starts: seq<Start>) {
    && (forall i :: 0 <= i < |starts| ==> starts[i].t != nobody && starts[i].p < PRIORITIES && 1 <= starts[i].ticks)
    && forall i, j :: 0 <= i < j < |starts| ==> starts[i].t != starts[j].t
  }

  /** rt_system_scheduler_init and then rt_thread_startup of each thread; without a current thread nothing is
      scheduled. */
  function Booted(nobody: nat, starts: seq<Start>): (z: State)
    requires Bootable(nobody, starts)
    ensures |z.ready| == PRIORITIES && z.current == nobody && z.lock == 0
    ensures forall t :: t in z.threads <==> exists i :: 0 <= i < |starts| && starts[i].t == t
  {
    if starts == [] then State(map[], seq(PRIORITIES, _ => []), 0, nobody, 0)
    else
      var last := starts[|starts| - 1];
      Joined(Booted(nobody, starts[..|starts| - 1]), last.t, last.p, last.ticks)
  }

  /** rt_system_scheduler_start. */
  function Launched(s: State): State
    requires Top(s.ready) < |s.ready| && Known(s, s.ready[Top(s.ready)][0])
  {
    var to := s.ready[Top(s.ready)][0];
    Enter(s.(current := to), to)
  }

  /** Before the scheduler runs every started thread is ready. */
  ghost predicate AllReady(s: State) {
    && Queues(s) && Slices(s) && s.current !in s.threads
    && forall t :: t in s.threads ==> s.threads[t].stat == Ready
  }

  lemma {:induction false} BootedReady(nobody: nat, starts: seq<Start>)
    requires Bootable(nobody, starts)
    ensures AllReady(Booted(nobody, starts))
  {
    hide Queues, Joined;
    if starts == [] {
      NoQueues(Booted(nobody, starts));
    } else {
      var n := |starts| - 1;
      BootedReady(nobody, starts[..n]);
      AlsoReady(Booted(nobody, starts[..n]), starts[n]);
    }
  }

  lemma AlsoReady(s: State, start: Start)
    requires AllReady(s) && |s.ready| == PRIORITIES && start.t !in s.threads && start.t != s.current
    requires start.p < PRIORITIES && 1 <= start.ticks
    ensures AllReady(Joined(s, start.t, start.p, start.ticks))
  {
    hide Queues;
    var thread := Thread(Suspended, start.p, start.ticks, start.ticks, false);
    RecordedQueues(s, start.t, thread);
    InsertQueues(Recorded(s, start.t, thread), start.t);
  }

  lemma NoQueues(s: State)
    requires s.threads == map[] && s.ready == seq(PRIORITIES, _ => []) && s.group == 0
    ensures Queues(s)
  {
    PowPositive(PRIORITIES);
    forall p: nat ensures !Bit(0, p) { NoBit(p); }
  }

  lemma SomethingReady(s: State)
    requires AllReady(s) && s.threads != map[]
    ensures Top(s.ready) < |s.ready| == PRIORITIES && Known(s, s.ready[Top(s.ready)][0])
  {
    hide Pow2, Bit;
    var t :| t in s.threads;
    TopIsBest(s);
    HeadReady(s);
  }

  /** The first thread of the most urgent nonempty list runs, the others wait as they were started. */
  lemma LaunchedInv(s: State)
    requires AllReady(s) && s.threads != map[]
    ensures Top(s.ready) < |s.ready| && Known(s, s.ready[Top(s.ready)][0]) && Inv(Launched(s))
    ensures var z, to := Launched(s), s.ready[Top(s.ready)][0];
            && z.current == to && z.threads == s.threads[to := s.threads[to].(stat := Running)]
            && z.ready == s.ready[Top(s.ready) := s.ready[Top(s.ready)][1..]] && z.lock == s.lock
            && forall t :: t in s.threads ==> s.threads[to].prio <= s.threads[t].prio
  {
    hide Queues, Without;
    SomethingReady(s);
    TopIsBest(s);
    HeadReady(s);
    var to := s.ready[Top(s.ready)][0];
    SameQueues(s, s.(current := to));
    RemoveQueues(s.(current := to), to, Running);
    HeadLeaves(s.ready[Top(s.ready)], to);
  }

  /** Where every run begins: any number of started threads, the most urgent of them running. */
  ghost predicate StartedFrom(s: State, nobody: nat, starts: seq<Start>) {
    && Bootable(nobody, starts)
    && var z := Booted(nobody, starts);
       Top(z.ready) < |z.ready| && Known(z, z.ready[Top(z.ready)][0]) && s == Launched(z)
  }

  ghost predicate Started(s: State) {
    exists nobody, starts :: starts != [] && StartedFrom(s, nobody, starts)
  }

  lemma StartedInv(s: State, nobody: nat, starts: seq<Start>)
    requires starts != [] && StartedFrom(s, nobody, starts)
    ensures Inv(s)
  {
    hide AllReady, Launched, Inv;
    BootedReady(nobody, starts);
    assert starts[0].t in Booted(nobody, starts).threads;
    LaunchedInv(Booted(nobody, starts));
  }

  /** Any interleaving of calls from a started system. */
  ghost predicate Run(states: seq<State>, steps: seq<Step>) {
    && |states| == |steps| + 1
    && Started(states[0])
    && forall i :: 0 <= i < |steps| ==> Enabled(states[i], steps[i]) && states[i + 1] == Next(states[i], steps[i])
  }

  /** Over every run: bits mark the nonempty lists, each ready thread is on the list of its priority, nobody
      but the current thread runs, and 1 <= remaining_tick <= init_tick. */
  lemma {:induction false} RunInv(states: seq<State>, steps: seq<Step>, i: nat)
    requires Run(states, steps) && i < |states|
    ensures Inv(states[i])
  {
    hide Inv, Next, Enabled, StartedFrom;
    if i == 0 {
      var nobody, starts :| starts != [] && StartedFrom(states[0], nobody, starts);
      StartedInv(states[0], nobody, starts);
    } else {
      RunInv(states, steps, i - 1);
      assert states[i - 1 + 1] == Next(states[i - 1], steps[i - 1]);
      StepInv(states[i - 1], steps[i - 1]);
    }
  }

  /** The steps that end in rt_schedule: a tick does when it uses up the slice, rt_exit_critical when it leaves the
      outermost section. */
  ghost predicate Schedules(s: State, step: Step) {
    match step
    case Tick => s.current in s.threads && s.threads[s.current].remaining == 1
    case Unlock => s.lock <= 1
    case Startup(_, _, _) => true
    case Exit => true
    case Yield => true
    case Reschedule => true
    case _ => false
  }

  /** The current thread runs and nobody ready is more urgent. */
  ghost predicate Best(s: State) {
    && s.current in s.threads && s.threads[s.current].stat == Running
    && forall t :: t in s.threads && s.threads[t].stat == Ready ==> s.threads[s.current].prio <= s.threads[t].prio
  }

  /** Who can use the processor once a step that schedules is over. */
  ghost function RunnableAfter(s: State, step: Step): set<nat> {
    match step
    case Startup(t, _, _) => Runnable(s) + {t}
    case Exit => Runnable(s) - {s.current}
    case _ => Runnable(s)
  }

  /** Over every run: a step that schedules and leaves the scheduler unlocked leaves a most urgent runnable thread
      current, if any thread is runnable; starting a thread makes it runnable, exiting takes the current one out,
      and the others leave the runnable threads as they were. */
  lemma RunBest(states: seq<State>, steps: seq<Step>, i: nat)
    requires Run(states, steps) && i < |steps| && Schedules(states[i], steps[i])
    ensures states[i + 1].lock == 0 && Runnable(states[i + 1]) != {} ==> Best(states[i + 1])
    ensures Runnable(states[i + 1]) == RunnableAfter(states[i], steps[i])
  {
    hide Inv, Next, Enabled, StartedFrom, Runnable, RunnableAfter, Best, Schedules;
    RunInv(states, steps, i);
    assert states[i + 1] == Next(states[i], steps[i]) && Enabled(states[i], steps[i]);
    StepBest(states[i], steps[i]);
  }

  lemma StepBest(s: State, step: Step)
    requires Inv(s) && Enabled(s, step) && Schedules(s, step)
    ensures Next(s, step).lock == 0 && Runnable(Next(s, step)) != {} ==> Best(Next(s, step))
    ensures Runnable(Next(s, step)) == RunnableAfter(s, step)
  {
    hide Queues, Scheduled, Addressable, Runnable, Joined, Gone, Slices, OneRuns, ScheduleReady;
    InvAddressable(s);
    AddressableParts(s);
    match step {
      case Startup(t, p, ticks) => StartupBest(s, t, p, ticks);
      case Exit => ExitBest(s);
      case Yield => YieldBest(s);
      case Tick => YieldBest(s);
      case Unlock => UnlockBest(s);
      case Reschedule => ScheduledBest(s);
    }
  }

  lemma AddressableParts(s: State)
    requires Addressable(s)
    ensures ScheduleReady(s) && |s.ready| == PRIORITIES && s.current in s.threads
    ensures forall t :: t in s.threads ==> s.threads[t].prio < PRIORITIES
  {
  }

  lemma ScheduledBest(s: State)
    requires Inv(s)
    ensures ScheduleReady(s) && Runnable(Scheduled(s)) == Runnable(s)
    ensures Scheduled(s).lock == 0 && Runnable(Scheduled(s)) != {} ==> Best(Scheduled(s))
  {
    hide Inv, Scheduled, Runnable, ScheduleReady;
    ScheduleBest(s);
    ScheduleSpec(s);
  }

  lemma StartupBest(s: State, t: nat, p: nat, ticks: nat)
    requires Inv(s) && |s.ready| == PRIORITIES && Enabled(s, Startup(t, p, ticks))
    ensures var y := Joined(s, t, p, ticks);
            && ScheduleReady(y) && Runnable(Scheduled(y)) == Runnable(s) + {t}
            && (Scheduled(y).lock == 0 && Runnable(Scheduled(y)) != {} ==> Best(Scheduled(y)))
  {
    hide Inv, Scheduled, ScheduleReady, Best;
    JoinedInv(s, t, p, ticks);
    ScheduledBest(Joined(s, t, p, ticks));
    assert Runnable(Joined(s, t, p, ticks)) == Runnable(s) + {t};
  }

  lemma ExitBest(s: State)
    requires Inv(s) && Known(s, s.current)
    ensures var y := Gone(s, s.current);
            && ScheduleReady(y) && Runnable(Scheduled(y)) == Runnable(s) - {s.current}
            && (Scheduled(y).lock == 0 && Runnable(Scheduled(y)) != {} ==> Best(Scheduled(y)))
  {
    hide Inv, Scheduled, ScheduleReady, Best;
    GoneInv(s, s.current);
    ScheduledBest(Gone(s, s.current));
    assert Runnable(Gone(s, s.current)) == Runnable(s) - {s.current};
  }

  /** A yield, and a tick at the end of a slice. */
  lemma YieldBest(s: State)
    requires Inv(s) && ScheduleReady(s) && s.current in s.threads
    ensures var z := YieldStep(s);
            Runnable(z) == Runnable(s) && (z.lock == 0 && Runnable(z) != {} ==> Best(z))
  {
    hide Inv, Scheduled, Best;
    var c := s.threads[s.current];
    var y := s.(threads := s.threads[s.current := c.(remaining := c.init, yielded := true)]);
    Refilled(s, y);
    ScheduledBest(y);
    assert Runnable(y) == Runnable(s);
  }

  lemma UnlockBest(s: State)
    requires Inv(s)
    ensures ScheduleReady(s.(lock := 0))
    ensures var z := Scheduled(s.(lock := 0));
            Runnable(z) == Runnable(s) && (z.lock == 0 && Runnable(z) != {} ==> Best(z))
  {
    hide Queues, Scheduled, Best;
    SameQueues(s, s.(lock := 0));
    ScheduledBest(s.(lock := 0));
    assert Runnable(s.(lock := 0)) == Runnable(s);
  }

  // ----- what the calls do -----

  /** t has left the list, the others keep their order. */
  ghost predicate Dropped(was: seq<nat>, now: seq<nat>, t: nat) {
    if t in was then exists k: nat :: k < |was| && CutAt(was, now, t, k) else now == was
  }

  ghost predicate CutAt(was: seq<nat>, now: seq<nat>, t: nat, k: nat) {
    k < |was| && was[k] == t && now == was[..k] + was[k + 1..]
  }

  lemma {:induction false} WithoutDropped(list: seq<nat>, t: nat)
    ensures Dropped(list, Without(list, t), t)
  {
    hide Dropped;
    if list == [] {
      NotThere(list, t);
    } else if list[0] == t {
      FirstDropped(list);
    } else {
      WithoutDropped(list[1..], t);
      DroppedBehind(list[0], list[1..], Without(list[1..], t), t);
      assert [list[0]] + list[1..] == list;
    }
  }

  lemma FirstDropped(list: seq<nat>)
    requires list != []
    ensures Dropped(list, list[1..], list[0])
  {
    assert CutAt(list, list[1..], list[0], 0);
  }

  lemma DroppedBehind(x: nat, was: seq<nat>, now: seq<nat>, t: nat)
    requires Dropped(was, now, t) && x != t
    ensures Dropped([x] + was, [x] + now, t)
  {
    if t in was {
      var k: nat :| k < |was| && CutAt(was, now, t, k);
      CutBehind(x, was, now, t, k);
    }
  }

  lemma CutBehind(x: nat, was: seq<nat>, now: seq<nat>, t: nat, k: nat)
    requires CutAt(was, now, t, k)
    ensures CutAt([x] + was, [x] + now, t, k + 1)
  {
    assert ([x] + was)[..k + 1] == [x] + was[..k] && ([x] + was)[k + 2..] == was[k + 1..];
  }

  /** Neither the current thread nor the lock nest has changed. */
  ghost predicate SameTurn(s: State, z: State) {
    z.current == s.current && z.lock == s.lock && |z.ready| == |s.ready| == PRIORITIES
  }

  /** t is on no list any more; nothing else has moved. */
  ghost predicate OffLists(s: State, z: State, t: nat) {
    SameTurn(s, z) && forall q :: 0 <= q < PRIORITIES ==> t !in z.ready[q] && Dropped(s.ready[q], z.ready[q], t)
  }

  /** t waits at the end of list p; nothing else has moved. */
  ghost predicate OnList(s: State, z: State, t: nat, p: nat) {
    SameTurn(s, z) && p < PRIORITIES && z.ready == s.ready[p := s.ready[p] + [t]]
  }

  /** The bits of the group word mark the nonempty lists. */
  ghost predicate Marked(z: State) {
    |z.ready| == PRIORITIES && forall q: nat :: q < PRIORITIES ==> (Bit(z.group, q) <==> z.ready[q] != [])
  }

  lemma QueuesMarked(s: State)
    requires Queues(s)
    ensures Marked(s)
  {
    hide Bit, Pow2;
  }

  /** A thread is listed under its own priority only. */
  lemma RemovedOffLists(s: State, t: nat)
    requires Inv(s) && Known(s, t)
    ensures OffLists(s, Removed(s, t), t)
  {
    hide Bit, Pow2, Without, Dropped, Slices, OneRuns, ClearBit;
    var z, p := Removed(s, t), s.threads[t].prio;
    WithoutItems(s.ready[p], t);
    WithoutDropped(s.ready[p], t);
    forall q | 0 <= q < PRIORITIES ensures t !in z.ready[q] && Dropped(s.ready[q], z.ready[q], t) {
      if q != p { NotThere(s.ready[q], t); }
    }
  }

  lemma NotThere(list: seq<nat>, t: nat)
    ensures t !in list ==> Dropped(list, list, t)
  {
  }

  /** A suspended thread is off its list and no longer runnable; a thread that is neither ready nor running is left
      alone. */
  lemma SuspendTakesOff(s: State, t: nat)
    requires Inv(s) && t in s.threads
    ensures var z := Next(s, Step.Suspend(t));
            if s.threads[t].stat == Ready || s.threads[t].stat == Running then
              && z.threads == s.threads[t := s.threads[t].(stat := Suspended)]
              && OffLists(s, z, t) && Marked(z) && Runnable(z) == Runnable(s) - {t}
            else z == s
  {
    hide Queues, Marked, OffLists, Without;
    InvAddressable(s);
    ListCount(s);
    StepInv(s, Step.Suspend(t));
    QueuesMarked(Next(s, Step.Suspend(t)));
    if s.threads[t].stat == Ready || s.threads[t].stat == Running {
      RemovedOffLists(s, t);
      OffListsThreads(s, Removed(s, t), Next(s, Step.Suspend(t)), t);
    }
  }

  lemma OffListsThreads(s: State, y: State, z: State, t: nat)
    requires OffLists(s, y, t) && z == y.(threads := z.threads)
    ensures OffLists(s, z, t)
  {
  }

  /** A resumed thread waits at the end of the list of its priority, unless it is still the current one; a thread that
      is not suspended is left alone. */
  lemma ResumePutsOn(s: State, t: nat)
    requires Inv(s) && t in s.threads
    ensures var z := Next(s, Step.Resume(t));
            if s.threads[t].stat != Suspended then z == s
            else
              && Marked(z) && Runnable(z) == Runnable(s) + {t}
              && (t != s.current ==> z.threads == s.threads[t := s.threads[t].(stat := Ready)]
                                     && OnList(s, z, t, s.threads[t].prio))
              && (t == s.current ==> z.threads == s.threads[t := s.threads[t].(stat := Running)]
                                     && SameTurn(s, z) && z.ready == s.ready)
  {
    hide Queues, Marked, SetBit;
    InvAddressable(s);
    ListCount(s);
    StepInv(s, Step.Resume(t));
    QueuesMarked(Next(s, Step.Resume(t)));
  }

  /** A ready thread goes to the end of the list of its new priority; any other thread stays where it is. */
  lemma PriorityMoves(s: State, t: nat, p: nat)
    requires Inv(s) && t in s.threads && p < PRIORITIES
    ensures var z := Next(s, Step.ChangePriority(t, p));
            && z.threads == s.threads[t := s.threads[t].(prio := p)] && SameTurn(s, z) && Marked(z)
            && Runnable(z) == Runnable(s)
            && (s.threads[t].stat != Ready ==> z.ready == s.ready)
            && (s.threads[t].stat == Ready ==> exists y :: OffLists(s, y, t) && OnList(y, z, t, p))
  {
    hide Queues, Marked, Without, SetBit, ClearBit, OffLists;
    InvAddressable(s);
    ListCount(s);
    StepInv(s, Step.ChangePriority(t, p));
    QueuesMarked(Next(s, Step.ChangePriority(t, p)));
    if s.threads[t].stat == Ready {
      RemovedOffLists(s, t);
      OffListsSame(s, Removed(s, t), t);
      ReadyNotCurrent(s, t);
      assert OnList(Removed(s, t), Next(s, Step.ChangePriority(t, p)), t, p);
    }
  }

  lemma OffListsSame(s: State, y: State, t: nat)
    requires OffLists(s, y, t)
    ensures SameTurn(s, y)
  {
  }

  lemma ReadyNotCurrent(s: State, t: nat)
    requires Inv(s) && t in s.threads && s.threads[t].stat == Ready
    ensures t != s.current
  {
  }

  /** A closed thread is off its list and no longer runnable. */
  lemma CloseTakesOff(s: State, t: nat)
    requires Inv(s) && t in s.threads
    ensures var z := Next(s, Step.Close(t));
            if s.threads[t].stat == Closed then z == s
            else
              && z.threads == s.threads[t := s.threads[t].(stat := Closed, yielded := false)]
              && OffLists(s, z, t) && Marked(z) && Runnable(z) == Runnable(s) - {t}
  {
    hide Queues, Marked, OffLists, Without;
    InvAddressable(s);
    ListCount(s);
    StepInv(s, Step.Close(t));
    QueuesMarked(Next(s, Step.Close(t)));
    if s.threads[t].stat != Closed {
      RemovedOffLists(s, t);
      OffListsThreads(s, Removed(s, t), Next(s, Step.Close(t)), t);
    }
  }

  /** A yield gives the processor to the first of the most urgent list, if it is at least as urgent; the thread that
      yields waits at the end of its own list with a full slice. */
  lemma YieldPassesOn(s: State, q: nat)
    requires Inv(s) && s.lock == 0 && s.current in s.threads && s.threads[s.current].stat == Running
    requires |s.ready| == PRIORITIES && q <= s.threads[s.current].prio < PRIORITIES && s.ready[q] != []
    requires forall r :: 0 <= r < q ==> s.ready[r] == []
    ensures var z, c, to := Next(s, Yield), s.threads[s.current], s.ready[q][0];
            && z.current == to != s.current && to in s.threads && z.lock == 0 && |z.ready| == PRIORITIES
            && z.threads == s.threads[s.current := c.(stat := Ready, remaining := c.init, yielded := false)]
                                     [to := s.threads[to].(stat := Running)]
            && (forall r :: 0 <= r < PRIORITIES && r != q && r != c.prio ==> z.ready[r] == s.ready[r])
            && (q == c.prio ==> z.ready[q] == s.ready[q][1..] + [s.current])
            && (q != c.prio ==> z.ready[q] == s.ready[q][1..] && z.ready[c.prio] == s.ready[c.prio] + [s.current])
  {
    hide Queues, Scheduled, Inv;
    InvAddressable(s);
    AddressableParts(s);
    var c := s.threads[s.current];
    var y := s.(threads := s.threads[s.current := c.(remaining := c.init, yielded := true)]);
    Refilled(s, y);
    InvParts(y);
    assert Top(y.ready) == q;
    HeadReady(y);
    ScheduleSpec(y);
    if q == c.prio { TurnEnds(s.ready, q, s.current); }
  }

  /** Otherwise it goes on itself, with a full slice. */
  lemma YieldGoesOn(s: State)
    requires Inv(s) && s.current in s.threads && s.threads[s.current].stat == Running && |s.ready| == PRIORITIES
    requires s.lock != 0 || forall r :: 0 <= r <= s.threads[s.current].prio && r < PRIORITIES ==> s.ready[r] == []
    ensures var z, c := Next(s, Yield), s.threads[s.current];
            var stale := s.lock != 0 || forall r :: 0 <= r < PRIORITIES ==> s.ready[r] == [];
            && SameTurn(s, z) && z.ready == s.ready
            && z.threads == s.threads[s.current := c.(remaining := c.init, yielded := stale)]
  {
    hide Queues, Scheduled, Inv, Moved, TakesOver, Addressable, ScheduleReady, Stays, Top;
    InvParts(s);
    ListCount(s);
    var y := YieldIsSchedule(s);
    StaysOn(y);
    ScheduleSpec(y);
  }

  lemma YieldIsSchedule(s: State) returns (y: State)
    requires Inv(s) && s.current in s.threads
    ensures var c := s.threads[s.current];
            y == s.(threads := s.threads[s.current := c.(remaining := c.init, yielded := true)])
    ensures Inv(y) && ScheduleReady(y) && Next(s, Yield) == Scheduled(y)
  {
    hide Queues, Scheduled, Inv;
    InvAddressable(s);
    AddressableParts(s);
    var c := s.threads[s.current];
    y := s.(threads := s.threads[s.current := c.(remaining := c.init, yielded := true)]);
    Refilled(s, y);
  }

  lemma StaysOn(s: State)
    requires s.current in s.threads && s.threads[s.current].stat == Running && |s.ready| == PRIORITIES
    ensures (forall r :: 0 <= r <= s.threads[s.current].prio && r < PRIORITIES ==> s.ready[r] == []) ==>
              Stays(s.threads[s.current], Top(s.ready)) || Top(s.ready) == PRIORITIES
    ensures Top(s.ready) == PRIORITIES <==> forall r :: 0 <= r < PRIORITIES ==> s.ready[r] == []
  {
  }

  /** A tick takes one off the slice of the current thread; the last one is a yield. */
  lemma TickCounts(s: State)
    requires Inv(s) && s.current in s.threads
    ensures var c := s.threads[s.current];
            && (c.remaining > 1 ==>
                  Next(s, Tick) == s.(threads := s.threads[s.current := c.(remaining := c.remaining - 1)]))
            && (c.remaining == 1 ==> Next(s, Tick) == Next(s, Yield))
            && c.remaining >= 1
  {
    hide Queues, Scheduled;
    InvAddressable(s);
  }

  /** A thread started behind a current one that stays: it waits at the end of its list. */
  lemma StartupWaits(s: State, t: nat, p: nat, ticks: nat)
    requires Inv(s) && Enabled(s, Startup(t, p, ticks)) && t != s.current && s.current in s.threads
    requires s.threads[s.current].stat == Running && |s.ready| == PRIORITIES
    requires s.lock != 0 || forall r :: 0 <= r < s.threads[s.current].prio && r < PRIORITIES ==> s.ready[r] == []
    requires s.lock != 0 || s.threads[s.current].prio < p
             || (s.threads[s.current].prio == p && !s.threads[s.current].yielded)
    requires s.lock != 0 || s.ready[s.threads[s.current].prio] == [] || !s.threads[s.current].yielded
    ensures var z, c := Next(s, Startup(t, p, ticks)), s.threads[s.current];
            && OnList(s, z, t, p)
            && z.threads == s.threads[t := Thread(Ready, p, ticks, ticks, false)]
                                     [s.current := if s.lock == 0 then c.(yielded := false) else c]
  {
    hide Queues, Scheduled, Inv, Joined, Stays, Moved, TakesOver, Addressable, ScheduleReady, Top;
    StartupIsJoin(s, t, p, ticks);
    JoinedInv(s, t, p, ticks);
    InvParts(s);
    ListCount(s);
    JoinedStays(s, t, p, ticks);
    ScheduleSpec(Joined(s, t, p, ticks));
  }

  lemma StartupIsJoin(s: State, t: nat, p: nat, ticks: nat)
    requires Inv(s) && |s.ready| == PRIORITIES && Enabled(s, Startup(t, p, ticks))
    ensures ScheduleReady(Joined(s, t, p, ticks))
    ensures Next(s, Startup(t, p, ticks)) == Scheduled(Joined(s, t, p, ticks))
  {
    hide Inv, Scheduled, Addressable, ScheduleReady, Joined;
    InvAddressable(s);
    JoinedReady(s, t, p, ticks);
  }

  lemma JoinedStays(s: State, t: nat, p: nat, ticks: nat)
    requires t != s.current && p < PRIORITIES == |s.ready| && s.current in s.threads
    ensures var y, c := Joined(s, t, p, ticks), s.threads[s.current];
            && y.current == s.current && y.lock == s.lock && y.ready == s.ready[p := s.ready[p] + [t]]
            && y.threads == s.threads[t := Thread(Ready, p, ticks, ticks, false)] && Top(y.ready) < PRIORITIES
            && (c.stat == Running && c.prio < PRIORITIES && (forall r :: 0 <= r < c.prio ==> s.ready[r] == [])
                && (c.prio < p || (c.prio == p && !c.yielded)) && (s.ready[c.prio] == [] || !c.yielded)
                ==> Stays(c, Top(y.ready)))
  {
    var y := Joined(s, t, p, ticks);
    assert y.ready[p] != [];
  }

  /** Critical sections entered less those left, never below 0. */
  function Nest(steps: seq<Step>, i: nat): nat
    requires i <= |steps|
  {
    if i == 0 then 0
    else
      match steps[i - 1]
      case Lock => Nest(steps, i - 1) + 1
      case Unlock => if Nest(steps, i - 1) == 0 then 0 else Nest(steps, i - 1) - 1
      case _ => Nest(steps, i - 1)
  }

  /** Over every run the lock nest counts the critical sections that are open. */
  lemma {:induction false} RunNest(states: seq<State>, steps: seq<Step>, i: nat)
    requires Run(states, steps) && i < |states|
    ensures states[i].lock == Nest(steps, i)
  {
    hide Inv, Next, Enabled, StartedFrom;
    if i == 0 {
      var nobody, starts :| starts != [] && StartedFrom(states[0], nobody, starts);
      StartedUnlocked(states[0], nobody, starts);
    } else {
      RunNest(states, steps, i - 1);
      RunInv(states, steps, i - 1);
      assert states[i - 1 + 1] == Next(states[i - 1], steps[i - 1]) && Enabled(states[i - 1], steps[i - 1]);
      StepNest(states[i - 1], steps[i - 1]);
    }
  }

  lemma StartedUnlocked(s: State, nobody: nat, starts: seq<Start>)
    requires starts != [] && StartedFrom(s, nobody, starts)
    ensures s.lock == 0
  {
  }

  /** What a step does to the nest; the current thread changes only if no section is open afterwards. */
  lemma StepNest(s: State, step: Step)
    requires Inv(s) && Enabled(s, step)
    ensures Next(s, step).lock == match step
                                  case Lock => s.lock + 1
                                  case Unlock => if s.lock == 0 then 0 else s.lock - 1
                                  case _ => s.lock
    ensures Next(s, step).lock != 0 ==> Next(s, step).current == s.current
  {
    hide Queues, Addressable, Scheduled, Joined, Gone, TickStep, YieldStep;
    hide SuspendStep, ResumeStep, PriorityStep;
    InvAddressable(s);
    AddressableParts(s);
    match step {
      case Startup(t, p, ticks) => StartupNest(s, t, p, ticks);
      case Exit => ExitNest(s);
      case Close(t) => MovesNest(s, t, 0);
      case Suspend(t) => MovesNest(s, t, 0);
      case Resume(t) => MovesNest(s, t, 0);
      case ChangePriority(t, p) => MovesNest(s, t, p);
      case Tick => YieldNest(s);
      case Yield => YieldNest(s);
      case Lock =>
      case Unlock => if s.lock <= 1 { ScheduledNest(s.(lock := 0)); }
      case Reschedule => ScheduledNest(s);
    }
  }

  lemma StartupNest(s: State, t: nat, p: nat, ticks: nat)
    requires Inv(s) && |s.ready| == PRIORITIES && Enabled(s, Startup(t, p, ticks))
    ensures ScheduleReady(Joined(s, t, p, ticks))
    ensures var z := Scheduled(Joined(s, t, p, ticks)); z.lock == s.lock && (z.lock != 0 ==> z.current == s.current)
  {
    hide Inv, Scheduled;
    StartupIsJoin(s, t, p, ticks);
    ScheduledNest(Joined(s, t, p, ticks));
  }

  lemma ExitNest(s: State)
    requires Inv(s) && Known(s, s.current)
    ensures ScheduleReady(Gone(s, s.current))
    ensures var z := Scheduled(Gone(s, s.current)); z.lock == s.lock && (z.lock != 0 ==> z.current == s.current)
  {
    hide Inv, Scheduled;
    ScheduleCases(s);
    ScheduledNest(Gone(s, s.current));
  }

  lemma YieldNest(s: State)
    requires Inv(s) && ScheduleReady(s)
    ensures YieldStep(s).lock == s.lock && (s.lock != 0 ==> YieldStep(s).current == s.current)
    ensures TickStep(s).lock == s.lock && (s.lock != 0 ==> TickStep(s).current == s.current)
  {
    hide Inv, Scheduled;
    var c := s.threads[s.current];
    ScheduledNest(s.(threads := s.threads[s.current := c.(remaining := c.init, yielded := true)]));
  }

  /** Moving threads on and off lists concerns neither the nest nor the current thread. */
  lemma MovesNest(s: State, t: nat, p: nat)
    requires Known(s, t) && p < |s.ready|
    ensures Gone(s, t).lock == SuspendStep(s, t).lock == ResumeStep(s, t).lock == PriorityStep(s, t, p).lock == s.lock
    ensures Gone(s, t).current == SuspendStep(s, t).current == s.current
    ensures ResumeStep(s, t).current == PriorityStep(s, t, p).current == s.current
  {
    hide SetBit, ClearBit, Without;
  }

  lemma ScheduledNest(s: State)
    requires ScheduleReady(s)
    ensures Scheduled(s).lock == s.lock && (s.lock != 0 ==> Scheduled(s) == s)
  {
    hide SetBit, ClearBit, Without;
  }

  /** Over every run: while a critical section is open nobody else takes over the processor. */
  lemma NoSwitchInside(states: seq<State>, steps: seq<Step>, i: nat)
    requires Run(states, steps) && i < |steps| && Nest(steps, i + 1) > 0
    ensures states[i + 1].current == states[i].current
  {
    hide Inv, Next, Enabled, StartedFrom, Nest;
    RunNest(states, steps, i + 1);
    RunInv(states, steps, i);
    assert states[i + 1] == Next(states[i], steps[i]) && Enabled(states[i], steps[i]);
    StepNest(states[i], steps[i]);
  }

  // ----- two runs -----

  /** One thread of priority p, the only one started at boot. */
  ghost function Lone(p: nat, ticks: nat): (z: State)
    requires p < PRIORITIES && 1 <= ticks
    ensures Started(z) && Inv(z)
    ensures z.threads == map[0 := Thread(Running, p, ticks, ticks, false)] && z.current == 0 && z.lock == 0
    ensures z.ready == seq(PRIORITIES, _ => [])
  {
    var starts := [Start(0, p, ticks)];
    LoneLaunched(p, ticks);
    StartedInv(Launched(Booted(1, starts)), 1, starts);
    Launched(Booted(1, starts))
  }

  lemma LoneLaunched(p: nat, ticks: nat)
    requires p < PRIORITIES && 1 <= ticks
    ensures var starts := [Start(0, p, ticks)];
            && Bootable(1, starts)
            && var s := Booted(1, starts);
               && Top(s.ready) < |s.ready| && Known(s, s.ready[Top(s.ready)][0])
               && var z := Launched(s);
                  && z.threads == map[0 := Thread(Running, p, ticks, ticks, false)] && z.current == 0 && z.lock == 0
                  && z.ready == seq(PRIORITIES, _ => [])
  {
    hide Queues;
    var starts := [Start(0, p, ticks)];
    var s := Booted(1, starts);
    assert starts[..0] == [];
    assert s == Joined(Booted(1, []), 0, p, ticks);
    BootedReady(1, starts);
    assert 0 in s.threads;
    LaunchedInv(s);
    var none: seq<seq<nat>> := seq(PRIORITIES, _ => []);
    assert s.ready == none[p := [] + [0]];
    assert Top(s.ready) == p;
  }

  /** A thread started with nobody as urgent on the lists takes over from a less urgent current thread, and from an
      equally urgent one that has the YIELD flag; the current thread waits behind those of its priority. */
  lemma StartupTakesOver(s: State, t: nat, p: nat, ticks: nat)
    requires Inv(s) && Enabled(s, Startup(t, p, ticks)) && s.lock == 0
    requires s.current in s.threads && s.threads[s.current].stat == Running && t != s.current
    requires p < s.threads[s.current].prio || (p == s.threads[s.current].prio && s.threads[s.current].yielded)
    requires |s.ready| == PRIORITIES && forall q :: 0 <= q <= p ==> s.ready[q] == []
    ensures var z, c := Next(s, Startup(t, p, ticks)), s.threads[s.current];
            && z.current == t && z.lock == 0 && Inv(z)
            && z.threads == s.threads[s.current := c.(stat := Ready, yielded := false)]
                                    [t := Thread(Running, p, ticks, ticks, false)]
            && c.prio < PRIORITIES && z.ready == s.ready[c.prio := s.ready[c.prio] + [s.current]]
  {
    hide Queues, Scheduled, Joined, Moved;
    ListCount(s);
    InvAddressable(s);
    StepInv(s, Startup(t, p, ticks));
    JoinedInv(s, t, p, ticks);
    JoinedTop(s, t, p, ticks);
    ScheduleSpec(Joined(s, t, p, ticks));
    ThroughList(s.ready, p, s.threads[s.current].prio, t, s.current);
  }

  lemma JoinedTop(s: State, t: nat, p: nat, ticks: nat)
    requires t != s.current && p < |s.ready| && forall q :: 0 <= q <= p ==> s.ready[q] == []
    ensures var y := Joined(s, t, p, ticks);
            && y.threads == s.threads[t := Thread(Ready, p, ticks, ticks, false)] && y.current == s.current
            && y.lock == s.lock
            && y.ready == s.ready[p := [t]] && Top(y.ready) == p
  {
    var y := Joined(s, t, p, ticks);
    assert y.ready[p] == [t];
  }

  /** A thread that joins an empty list and takes over at once leaves no trace on it. */
  lemma ThroughList(ready: seq<seq<nat>>, p: nat, q: nat, t: nat, from: nat)
    requires p < |ready| && q < |ready| && ready[p] == []
    ensures Moved(ready[p := [t]], p, q, from, true) == ready[q := ready[q] + [from]]
  {
    var r := ready[p := [t]];
    if p == q {
      assert ([t] + [from])[1..] == [] + [from];
    } else {
      assert [t][1..] == [];
      assert r[q := ready[q] + [from]][p := []] == ready[q := ready[q] + [from]];
    }
  }

  /** A thread that exits leaves the processor to the first of the most urgent list. */
  lemma ExitPassesOn(s: State)
    requires Inv(s) && s.lock == 0 && s.current in s.threads && s.threads[s.current].stat == Running
    requires Top(s.ready) < |s.ready| && s.ready[Top(s.ready)][0] in s.threads
    ensures var z, to := Next(s, Exit), s.ready[Top(s.ready)][0];
            && z.current == to != s.current && Inv(z)
            && z.threads == s.threads[s.current := s.threads[s.current].(stat := Closed, yielded := false)]
                                     [to := s.threads[to].(stat := Running)]
            && z.ready == s.ready[Top(s.ready) := s.ready[Top(s.ready)][1..]]
  {
    hide Queues, Scheduled, Without;
    ListCount(s);
    HeadReady(s);
    InvAddressable(s);
    StepInv(s, Exit);
    GoneInv(s, s.current);
    NotListed(s);
    WithoutItems(s.ready[s.threads[s.current].prio], s.current);
    assert Gone(s, s.current).ready == s.ready;
    ScheduleSpec(Gone(s, s.current));
  }

  lemma NotListed(s: State)
    requires Inv(s) && Known(s, s.current)
    ensures s.current !in s.ready[s.threads[s.current].prio] && NoDup(s.ready[s.threads[s.current].prio])
  {
    hide Pow2, Bit;
  }

  /** A system boots with thread 0 at priority 5. It starts thread 1 at priority 3, which takes over at once while
      thread 0 waits on list 5, its bit set; when thread 1 returns, thread 0 goes on. */
  lemma SecondThreadRuns() returns (states: seq<State>, steps: seq<Step>)
    ensures Run(states, steps) && steps == [Startup(1, 3, 10), Exit]
    ensures states[0].current == 0 && 1 !in states[0].threads
    ensures states[1].current == 1 && 0 in states[1].threads && states[1].threads[0].stat == Ready
    ensures |states[1].ready| == PRIORITIES && states[1].ready[5] == [0] && Bit(states[1].group, 5)
    ensures states[2].current == 0 && 1 in states[2].threads && states[2].threads[1].stat == Closed
    ensures |states[2].ready| == PRIORITIES && states[2].ready[5] == [] && !Bit(states[2].group, 5)
  {
    hide Queues, Bit, Pow2, Next, Started;
    var a := Lone(5, 10);
    steps := [Startup(1, 3, 10), Exit];
    StartupTakesOver(a, 1, 3, 10);
    var b := Next(a, steps[0]);
    BitMarks(b, 5);
    assert Top(b.ready) == 5;
    ExitPassesOn(b);
    var c := Next(b, Exit);
    BitMarks(c, 5);
    states := [a, b, c];
  }

  lemma BitMarks(s: State, p: nat)
    requires Queues(s) && p < PRIORITIES
    ensures |s.ready| == PRIORITIES && (Bit(s.group, p) <==> s.ready[p] != [])
  {
  }

  // ----- round robin -----

  /** n ticks in a row. */
  ghost function Ticks(s: State, n: nat): State
    requires Inv(s)
    decreases n
  {
    TickKeeps(s);
    if n == 0 then s else Ticks(TickStep(s), n - 1)
  }

  lemma TickKeeps(s: State)
    requires Inv(s)
    ensures ScheduleReady(s) && Inv(TickStep(s))
  {
    ScheduleCases(s);
    TickInv(s);
  }

  lemma {:induction false} TicksSplit(s: State, m: nat, n: nat)
    requires Inv(s)
    ensures Inv(Ticks(s, m)) && Ticks(s, m + n) == Ticks(Ticks(s, m), n)
    decreases m
  {
    hide TickStep, Inv;
    TickKeeps(s);
    if m > 0 { TicksSplit(TickStep(s), m - 1, n); }
  }

  /** Ticks left to the threads of a list. */
  ghost function Left(threads: map<nat, Thread>, list: seq<nat>): nat {
    if list == [] then 0 else (if list[0] in threads then threads[list[0]].remaining else 0) + Left(threads, list[1..])
  }

  /** The scheduler is unlocked, the current thread runs at priority p, nothing more urgent is ready. */
  ghost predicate InTurn(s: State, p: nat) {
    && Inv(s) && s.lock == 0 && p < PRIORITIES
    && s.threads[s.current].stat == Running && s.threads[s.current].prio == p
    && forall q :: 0 <= q < p && q < |s.ready| ==> s.ready[q] == []
  }

  lemma TopInTurn(s: State, p: nat)
    requires InTurn(s, p) && |s.ready| == PRIORITIES && s.ready[p] != []
    ensures Top(s.ready) == p
  {
  }

  /** A tick that does not use up the slice. */
  lemma TickWithin(s: State, p: nat)
    requires InTurn(s, p) && s.threads[s.current].remaining > 1
    ensures ScheduleReady(s)
    ensures var z := TickStep(s);
            && InTurn(z, p) && z.current == s.current && z.ready == s.ready
            && z.threads == s.threads[s.current :=
                 s.threads[s.current].(remaining := s.threads[s.current].remaining - 1)]
  {
    hide Queues;
    TickKeeps(s);
  }

  /** The last tick of a slice: the first waiting thread of the same priority takes over. */
  lemma TickOut(s: State, p: nat)
    requires InTurn(s, p) && s.threads[s.current].remaining == 1 && |s.ready| == PRIORITIES && s.ready[p] != []
    ensures ScheduleReady(s)
    ensures var z := TickStep(s);
            && InTurn(z, p) && z.current == s.ready[p][0] && |z.ready| == PRIORITIES
            && z.ready[p] == s.ready[p][1..] + [s.current]
            && z.current != s.current && z.current in s.threads
            && z.threads.Keys == s.threads.Keys
            && (forall t :: t in s.threads && t != s.current ==> z.threads[t].remaining == s.threads[t].remaining)
            && z.threads[s.current].remaining == s.threads[s.current].init
  {
    hide Queues, Scheduled, Inv;
    TickKeeps(s);
    InvParts(s);
    var c := s.threads[s.current];
    var y := s.(threads := s.threads[s.current := c.(remaining := c.init, yielded := true)]);
    Refilled(s, y);
    TopInTurn(s, p);
    Expired(y, p);
  }

  /** rt_schedule when the running thread has used up its slice. */
  lemma Expired(y: State, p: nat)
    requires Inv(y) && y.lock == 0 && y.current in y.threads && |y.ready| == PRIORITIES && p < PRIORITIES
    requires y.threads[y.current].stat == Running && y.threads[y.current].prio == p && y.threads[y.current].yielded
    requires Top(y.ready) == p && y.ready[p] != []
    ensures ScheduleReady(y)
    ensures var z := Scheduled(y);
            && z.lock == 0 && z.current == y.ready[p][0] && |z.ready| == PRIORITIES
            && z.ready[p] == y.ready[p][1..] + [y.current]
            && z.current != y.current && z.current in y.threads && z.threads.Keys == y.threads.Keys
            && z.threads[z.current].stat == Running && z.threads[z.current].prio == p
            && (forall q :: 0 <= q < p ==> z.ready[q] == [])
            && (forall t :: t in y.threads ==>
               z.threads[t].remaining == y.threads[t].remaining && z.threads[t].init == y.threads[t].init)
  {
    hide Queues, Scheduled, Inv, ScheduleReady, Handed, Moved;
    ScheduleSpec(y);
    InvParts(y);
    HeadReady(y);
    TurnEnds(y.ready, p, y.current);
    HandedSlices(y.threads, y.current, y.ready[p][0]);
  }

  /** The lists after a switch between equals. */
  lemma TurnEnds(ready: seq<seq<nat>>, p: nat, from: nat)
    requires p < |ready| && ready[p] != []
    ensures var z := Moved(ready, p, p, from, true);
            && |z| == |ready| && z[p] == ready[p][1..] + [from]
            && forall q :: 0 <= q < |ready| && q != p ==> z[q] == ready[q]
  {
    assert (ready[p] + [from])[1..] == ready[p][1..] + [from];
  }

  lemma HandedSlices(threads: map<nat, Thread>, from: nat, to: nat)
    requires from in threads && to in threads && from != to
    ensures var z := Handed(threads, from, to);
            && z.Keys == threads.Keys && z[to].stat == Running && z[to].prio == threads[to].prio
            && forall t :: t in threads ==> z[t].remaining == threads[t].remaining && z[t].init == threads[t].init
  {
  }

  lemma InvParts(s: State)
    requires Inv(s)
    ensures Queues(s) && s.current in s.threads && s.threads[s.current].stat != Ready
  {
  }

  lemma Refilled(s: State, y: State)
    requires Inv(s) && s.current in s.threads
    requires var c := s.threads[s.current];
             y == s.(threads := s.threads[s.current := c.(remaining := c.init, yielded := true)])
    ensures Inv(y)
  {
    hide Queues;
    SameQueues(s, y);
  }

  /** Within its slice the current thread keeps running. */
  lemma {:induction false} SliceRuns(s: State, p: nat, n: nat)
    requires InTurn(s, p) && n < s.threads[s.current].remaining
    ensures var z := Ticks(s, n);
            && InTurn(z, p) && z.current == s.current && z.ready == s.ready
            && z.threads == s.threads[s.current :=
                 s.threads[s.current].(remaining := s.threads[s.current].remaining - n)]
    decreases n
  {
    hide Queues, TickStep;
    TickKeeps(s);
    if n > 0 {
      TickWithin(s, p);
      SliceRuns(TickStep(s), p, n - 1);
    }
  }

  /** Exactly when its slice is used up, the thread waiting longest takes over. */
  lemma SliceEnds(s: State, p: nat)
    requires InTurn(s, p) && |s.ready| == PRIORITIES && s.ready[p] != []
    ensures var z := Ticks(s, s.threads[s.current].remaining);
            && InTurn(z, p) && z.current == s.ready[p][0] && |z.ready| == PRIORITIES
            && z.ready[p] == s.ready[p][1..] + [s.current]
            && z.current in s.threads && z.threads.Keys == s.threads.Keys
            && (forall t :: t in s.threads && t != s.current ==> z.threads[t].remaining == s.threads[t].remaining)
  {
    hide Queues, TickStep;
    var r := s.threads[s.current].remaining;
    SliceRuns(s, p, r - 1);
    TicksSplit(s, r - 1, 1);
    var y := Ticks(s, r - 1);
    TickOut(y, p);
    OneTick(y);
  }

  lemma OneTick(s: State)
    requires Inv(s)
    ensures ScheduleReady(s) && Ticks(s, 1) == TickStep(s)
  {
    hide TickStep;
    TickKeeps(s);
    var z := TickStep(s);
    assert Ticks(z, 0) == z;
  }

  /** Ticks until position k of list p gets its turn. */
  ghost function Turn(s: State, p: nat, k: nat): nat
    requires s.current in s.threads && p < |s.ready| && k <= |s.ready[p]|
  {
    s.threads[s.current].remaining + Left(s.threads, s.ready[p][..k])
  }

  lemma {:induction false} SameLeft(a: map<nat, Thread>, b: map<nat, Thread>, list: seq<nat>)
    requires forall t :: t in list ==> (t in a <==> t in b) && (t in a ==> a[t].remaining == b[t].remaining)
    ensures Left(a, list) == Left(b, list)
  {
    if list != [] { SameLeft(a, b, list[1..]); }
  }

  /** The turn counted from the next slice. */
  lemma NextTurn(s: State, z: State, p: nat, k: nat)
    requires InTurn(s, p) && |s.ready| == |z.ready| == PRIORITIES && 0 < k < |s.ready[p]|
    requires z.current == s.ready[p][0] && z.current in s.threads && z.threads.Keys == s.threads.Keys
    requires z.ready[p] == s.ready[p][1..] + [s.current]
    requires forall t :: t in s.threads && t != s.current ==> z.threads[t].remaining == s.threads[t].remaining
    ensures z.ready[p][k - 1] == s.ready[p][k] != s.current
    ensures Turn(s, p, k) == s.threads[s.current].remaining + Turn(z, p, k - 1)
  {
    hide Pow2, Bit;
    var list := s.ready[p];
    assert list[k] in list && list[0] in list;
    assert z.ready[p][..k - 1] == list[1..k] && list[..k][1..] == list[1..k];
    forall t | t in list[1..k] ensures t in list {
    }
    SameLeft(s.threads, z.threads, list[1..k]);
  }

  /** Exact round-robin wait: with ticks only, the scheduler unlocked and nothing more urgent ready, the thread
      at position k of the current priority's list becomes current after exactly the ticks left to the current
      thread and to the k threads ahead, and not before. */
  lemma {:induction false} RoundRobin(s: State, p: nat, k: nat, m: nat)
    requires InTurn(s, p) && |s.ready| == PRIORITIES && k < |s.ready[p]|
    ensures Ticks(s, Turn(s, p, k)).current == s.ready[p][k]
    ensures m < Turn(s, p, k) ==> Ticks(s, m).current != s.ready[p][k]
    decreases k
  {
    hide Queues, TickStep, Ticks, Left;
    var r := s.threads[s.current].remaining;
    SliceEnds(s, p);
    var z := Ticks(s, r);
    NotInOwnList(s, p, k);
    if m < r { SliceRuns(s, p, m); }
    if k == 0 {
      NoneAhead(s, p);
    } else {
      NextTurn(s, z, p, k);
      var n := Turn(z, p, k - 1);
      RoundRobin(z, p, k - 1, if m < r then 0 else m - r);
      TicksSplit(s, r, n);
      if m >= r { TicksSplit(s, r, m - r); }
    }
  }

  lemma NoneAhead(s: State, p: nat)
    requires s.current in s.threads && p < |s.ready|
    ensures Turn(s, p, 0) == s.threads[s.current].remaining
  {
    assert s.ready[p][..0] == [];
  }

  lemma NotInOwnList(s: State, p: nat, k: nat)
    requires InTurn(s, p) && |s.ready| == PRIORITIES && k < |s.ready[p]|
    ensures s.ready[p][k] != s.current
  {
    hide Pow2, Bit;
    assert s.ready[p][k] in s.ready[p];
  }

  /** The last tick of a slice sets the YIELD flag; it outlives the tick iff rt_schedule does not get to look. */
  lemma StaleYieldIff(s: State)
    requires Inv(s) && s.threads[s.current].stat == Running && s.threads[s.current].remaining == 1
    ensures ScheduleReady(s) && s.current in TickStep(s).threads
    ensures TickStep(s).threads[s.current].yielded <==> s.lock != 0 || Top(s.ready) == PRIORITIES
  {
    hide Queues, Scheduled, Inv;
    TickKeeps(s);
    InvParts(s);
    ListCount(s);
    var c := s.threads[s.current];
    var y := s.(threads := s.threads[s.current := c.(remaining := c.init, yielded := true)]);
    Refilled(s, y);
    ScheduleSpec(y);
    InvParts(y);
    if Top(y.ready) < PRIORITIES { HeadReady(y); }
  }

  /** The only thread of a system uses up its slice: nobody is ready, so the flag stays, and the next thread that is
      started with the same priority takes over in the middle of a slice. */
  lemma StaleYieldSwitches() returns (states: seq<State>, steps: seq<Step>)
    ensures Run(states, steps) && steps == [Tick, Tick, Startup(1, 5, 10)]
    ensures forall i :: 0 <= i < 3 ==> states[i].current == 0 && 0 in states[i].threads
    ensures states[0].threads[0].remaining == 2 && states[1].threads[0].remaining == 1
    ensures states[2].threads[0].remaining == 2 && states[2].threads[0].yielded
    ensures states[3].current == 1 && |states[3].ready| == PRIORITIES && states[3].ready[5] == [0]
  {
    hide Queues, Next, Started;
    var a := Lone(5, 2);
    steps := [Tick, Tick, Startup(1, 5, 10)];
    LoneTick(a);
    var b := Next(a, Tick);
    LoneTick(b);
    var c := Next(b, Tick);
    StartupTakesOver(c, 1, 5, 10);
    states := [a, b, c, Next(c, steps[2])];
  }

  /** A tick with nobody ready. */
  lemma LoneTick(s: State)
    requires Inv(s) && s.current in s.threads && s.threads[s.current].stat == Running
    requires |s.ready| == PRIORITIES && forall q :: 0 <= q < PRIORITIES ==> s.ready[q] == []
    ensures var z, c := Next(s, Tick), s.threads[s.current];
            && Inv(z) && z.current == s.current && z.ready == s.ready && z.lock == s.lock
            && z.threads == s.threads[s.current := if c.remaining == 1 then c.(remaining := c.init, yielded := true)
                                                   else c.(remaining := c.remaining - 1)]
  {
    hide Queues;
    InvAddressable(s);
    StepInv(s, Tick);
    assert Top(s.ready) == PRIORITIES;
  }

  // ----- the scheduler's variables -----

  /** The lowest bit of the group word is the most urgent nonempty list. */
  lemma TopIsLowest(s: State)
    requires Queues(s)
    ensures s.group < 0x1_0000_0000
    ensures s.group == 0 <==> Top(s.ready) == PRIORITIES
    ensures forall p: nat :: Lowest(s.group, p) ==> p == Top(s.ready) < PRIORITIES
  {
    hide Pow2, Bit;
    PowWord();
    forall p: nat | Lowest(s.group, p) ensures p == Top(s.ready) < PRIORITIES {
      if p >= PRIORITIES { NoHighBit(s.group, p, PRIORITIES); }
      var t := Top(s.ready);
      assert Bit(s.group, t);
    }
    if s.group == 0 {
      GroupEmpty(s);
    } else {
      var p := SomeBit(s.group);
      if p >= PRIORITIES { NoHighBit(s.group, p, PRIORITIES); }
    }
  }

  lemma GroupEmpty(s: State)
    requires Queues(s) && s.group == 0
    ensures Top(s.ready) == PRIORITIES
  {
    hide Pow2;
    var t := Top(s.ready);
    if t < PRIORITIES {
      NoBit(t);
    }
  }

  class Kernel {
    var threads: map<nat, Thread>
    var priorityTable: seq<seq<nat>>
    var readyGroup: nat
    var current: nat
    var lockNest: nat

    ghost function View(): State
      reads this
    {
      State(threads, priorityTable, readyGroup, current, lockNest)
    }

    ghost predicate Valid()
      reads this
    {
      Inv(View())
    }

    /** rt_system_scheduler_init. */
    constructor (nobody: nat)
      ensures View() == Booted(nobody, [])
    {
      threads, priorityTable, readyGroup, current, lockNest := map[], seq(PRIORITIES, _ => []), 0, nobody, 0;
    }

    /** rt_schedule_insert_thread. */
    method InsertThread(t: nat)
      requires Known(View(), t)
      modifies this
      ensures View() == Inserted(old(View()), t)
    {
      var thread := threads[t];
      if t == current {
        threads := threads[t := thread.(stat := Running)];
        return;
      }
      threads := threads[t := thread.(stat := Ready)];
      priorityTable := priorityTable[thread.prio := priorityTable[thread.prio] + [t]];
      readyGroup := SetBit(readyGroup, thread.prio);
    }

    /** rt_schedule_remove_thread. */
    method RemoveThread(t: nat)
      requires Known(View(), t)
      modifies this
      ensures View() == Removed(old(View()), t)
    {
      var p := threads[t].prio;
      priorityTable := priorityTable[p := Without(priorityTable[p], t)];
      if priorityTable[p] == [] {
        readyGroup := ClearBit(readyGroup, p);
      }
    }

    /** rt_schedule. */
    method Schedule()
      requires Valid()
      modifies this
      ensures Valid() && View() == Scheduled(old(View()))
      ensures Runnable(View()) == old(Runnable(View()))
    {
      hide Queues, Slices, OneRuns, Inv, ScheduleReady, SetBit, ClearBit, Without, Lowest, Pow2, Bit, Runnable;
      InvParts(View());
      ScheduleBest(View());
      ListCount(View());
      TopIsLowest(View());
      if lockNest == 0 {
        if readyGroup != 0 {
          var highest := Ffs(readyGroup);
          highest := highest - 1;
          HeadReady(View());
          var to := priorityTable[highest][0];
          var insertFrom := false;
          var cur := threads[current];
          if cur.stat == Running {
            if cur.prio < highest {
              to := current;
            } else if cur.prio == highest && !cur.yielded {
              to := current;
            } else {
              insertFrom := true;
            }
            threads := threads[current := cur.(yielded := false)];
          }
          if to != current {
            var from := current;
            current := to;
            if insertFrom {
              InsertThread(from);
            }
            RemoveThread(to);
            threads := threads[to := threads[to].(stat := Running)];
          } else {
            RemoveThread(current);
            threads := threads[current := threads[current].(stat := Running)];
          }
        }
      }
    }

    /** rt_system_scheduler_start, once some thread was started. */
    method Launch(ghost starts: seq<Start>)
      requires starts != [] && Bootable(current, starts) && View() == Booted(current, starts)
      modifies this
      ensures Valid() && StartedFrom(View(), old(current), starts)
    {
      hide Queues, Booted, Without, ClearBit, Lowest;
      BootedReady(current, starts);
      assert starts[0].t in threads;
      SomethingReady(View());
      LaunchedInv(View());
      TopIsLowest(View());
      var highest := Ffs(readyGroup);
      var to := priorityTable[highest - 1][0];
      current := to;
      RemoveThread(to);
      threads := threads[to := threads[to].(stat := Running)];
    }

    /** rt_thread_startup: before the scheduler runs there is no current thread and nothing is scheduled. */
    method ThreadStartup(t: nat, p: nat, ticks: nat)
      requires current in threads ==> Valid()
      requires current !in threads ==> t != current && |priorityTable| == PRIORITIES
      requires Enabled(View(), Startup(t, p, ticks))
      modifies this
      ensures View() == old(if current in threads then Next(View(), Startup(t, p, ticks))
              else Joined(View(), t, p, ticks))
      ensures old(current in threads) ==> Valid()
    {
      hide Queues, Scheduled;
      ghost var s := View();
      if current in threads {
        InvAddressable(s);
        StepInv(s, Startup(t, p, ticks));
        JoinedInv(s, t, p, ticks);
      }
      threads := threads[t := Thread(Suspended, p, ticks, ticks, false)];
      InsertThread(t);
      if current in threads {
        Schedule();
      }
    }

    /** _thread_exit, what a thread function returns to. */
    method ThreadExit()
      requires Valid()
      modifies this
      ensures Valid() && View() == old(Next(View(), Exit))
    {
      hide Queues, Scheduled, Without, ClearBit;
      InvAddressable(View());
      StepInv(View(), Exit);
      GoneInv(View(), current);
      RemoveThread(current);
      threads := threads[current := threads[current].(stat := Closed, yielded := false)];
      Schedule();
    }

    /** rt_thread_detach and rt_thread_delete of a started thread. */
    method CloseThread(t: nat)
      requires Valid() && t in threads
      modifies this
      ensures Valid() && View() == old(Next(View(), Step.Close(t)))
      ensures t in threads && threads[t].stat == Closed && threads - {t} == old(threads) - {t}
      ensures old(threads[t].stat) != Closed ==> OffLists(old(View()), View(), t) && Marked(View())
      ensures old(threads[t].stat) != Closed ==> Runnable(View()) == Runnable(old(View())) - {t}
      ensures old(threads[t].stat) == Closed ==> View() == old(View())
    {
      hide Queues, Without, ClearBit, OffLists, Marked, Runnable;
      CloseTakesOff(View(), t);
      InvAddressable(View());
      StepInv(View(), Step.Close(t));
      if threads[t].stat == Closed {
        return;
      }
      RemoveThread(t);
      threads := threads[t := threads[t].(stat := Closed, yielded := false)];
    }

    /** rt_thread_suspend; false for a thread that is neither ready nor running. */
    method Suspend(t: nat) returns (ok: bool)
      requires Valid() && t in threads
      modifies this
      ensures Valid() && View() == old(Next(View(), Step.Suspend(t)))
      ensures ok == (old(threads[t].stat) in {Ready, Running})
      ensures ok ==> t in threads && threads[t].stat == Suspended && OffLists(old(View()), View(), t)
      ensures ok ==> Marked(View()) && Runnable(View()) == Runnable(old(View())) - {t}
      ensures threads - {t} == old(threads) - {t}
      ensures !ok ==> View() == old(View())
    {
      hide Queues, OffLists, Marked, Runnable, Without, ClearBit;
      SuspendTakesOff(View(), t);
      InvAddressable(View());
      ScheduleCases(View());
      ListCount(View());
      StepInv(View(), Step.Suspend(t));
      if threads[t].stat != Ready && threads[t].stat != Running {
        return false;
      }
      RemoveThread(t);
      threads := threads[t := threads[t].(stat := Suspended)];
      ok := true;
    }

    /** rt_thread_resume: the thread, already off its wait list, becomes ready. */
    method Resume(t: nat) returns (ok: bool)
      requires Valid() && t in threads
      modifies this
      ensures Valid() && View() == old(Next(View(), Step.Resume(t))) && ok == (old(threads[t].stat) == Suspended)
      ensures ok && t != current ==> t in threads && threads[t].stat == Ready
                                     && OnList(old(View()), View(), t, threads[t].prio)
      ensures ok ==> Marked(View()) && Runnable(View()) == Runnable(old(View())) + {t}
      ensures threads - {t} == old(threads) - {t}
      ensures !ok ==> View() == old(View())
    {
      hide Queues, Marked, Runnable, SetBit;
      ResumePutsOn(View(), t);
      InvAddressable(View());
      ScheduleCases(View());
      ListCount(View());
      StepInv(View(), Step.Resume(t));
      if threads[t].stat != Suspended {
        return false;
      }
      InsertThread(t);
      ok := true;
    }

    /** rt_thread_control with RT_THREAD_CTRL_CHANGE_PRIORITY. */
    method ChangePriority(t: nat, p: nat)
      requires Valid() && t in threads && p < PRIORITIES
      modifies this
      ensures Valid() && View() == old(Next(View(), Step.ChangePriority(t, p)))
      ensures threads == old(threads)[t := old(threads)[t].(prio := p)] && SameTurn(old(View()), View())
      ensures old(threads)[t].stat == Ready ==>
                exists y :: OffLists(old(View()), y, t) && OnList(y, View(), t, p)
      ensures old(threads)[t].stat != Ready ==> priorityTable == old(priorityTable)
      ensures Marked(View())
    {
      hide Queues, Without, OffLists, OnList, Marked, Runnable;
      PriorityMoves(View(), t, p);
      InvAddressable(View());
      ScheduleCases(View());
      ListCount(View());
      StepInv(View(), Step.ChangePriority(t, p));
      if threads[t].stat == Ready {
        RemoveThread(t);
        threads := threads[t := threads[t].(prio := p)];
        InsertThread(t);
      } else {
        threads := threads[t := threads[t].(prio := p)];
      }
    }

    /** rt_tick_increase, without the timer check. */
    method TickIncrease()
      requires Valid()
      modifies this
      ensures Valid() && View() == old(Next(View(), Tick))
    {
      hide Queues, Scheduled;
      InvAddressable(View());
      ScheduleCases(View());
      var thread := threads[current];
      TickKeeps(View());
      ghost var s := View();
      if thread.remaining - 1 == 0 {
        threads := threads[current := thread.(remaining := thread.init, yielded := true)];
        Refilled(s, View());
        Schedule();
      } else {
        threads := threads[current := thread.(remaining := thread.remaining - 1)];
      }
    }

    /** rt_thread_yield. */
    method YieldThread()
      requires Valid()
      modifies this
      ensures Valid() && View() == old(Next(View(), Yield))
    {
      hide Queues, Scheduled;
      InvAddressable(View());
      ScheduleCases(View());
      ghost var s := View();
      var thread := threads[current];
      threads := threads[current := thread.(remaining := thread.init, yielded := true)];
      Refilled(s, View());
      Schedule();
    }

    /** rt_enter_critical. */
    method EnterCritical()
      requires Valid()
      modifies this
      ensures Valid() && View() == old(Next(View(), Lock))
      ensures lockNest == old(lockNest) + 1
    {
      hide Queues;
      InvAddressable(View());
      StepInv(View(), Lock);
      lockNest := lockNest + 1;
    }

    /** rt_exit_critical; leaving the outermost section schedules. */
    method ExitCritical()
      requires Valid()
      modifies this
      ensures Valid() && View() == old(Next(View(), Unlock))
      ensures lockNest == if old(lockNest) > 0 then old(lockNest) - 1 else 0
      ensures lockNest > 0 ==> current == old(current) && threads == old(threads) && priorityTable == old(priorityTable)
    {
      hide Queues, Scheduled;
      InvAddressable(View());
      ghost var s := View();
      lockNest := if lockNest > 0 then lockNest - 1 else 0;
      SameQueues(s, View());
      ScheduleCases(View());
      ScheduledNest(View());
      if lockNest == 0 {
        Schedule();
      }
    }
  }
}
