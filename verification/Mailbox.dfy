/** The mailbox of ipc.c: a ring of words that refines a bounded double-ended queue, and the waiting
    protocol around it.  Every region between rt_hw_interrupt_disable and rt_hw_interrupt_enable is one step. */
module Mailbox {
  import opened WaitList
  import opened Wakeup

  const ENTRY_MAX: nat := 65535    // RT_MB_ENTRY_MAX

  datatype State = State(
    size: nat,
    mails: seq<int>,           // oldest first
    receivers: Line,           // parent.suspend_thread
    senders: Line              // suspend_sender_thread
  )

  /** `wait` says whether the timeout still allows to wait; `pos` is where _ipc_list_suspend inserts. */
  datatype Step =
    | Send(t: nat, value: int, wait: bool, pos: nat)
    | Urgent(t: nat, value: int)
    | Recv(t: nat, wait: bool, pos: nat)
    | SendTimeout(k: nat)
    | RecvTimeout(k: nat)
    | Reset

  predicate Running(s: State, t: nat) {
    t !in s.receivers.waiting && t !in s.senders.waiting
  }

  predicate Enabled(s: State, step: Step) {
    match step
    case Send(t, v, wait, pos) => Running(s, t) && t !in s.receivers.woken && pos <= |s.senders.waiting|
    case Urgent(t, v) => Running(s, t) && t !in s.receivers.woken && t !in s.senders.woken
    case Recv(t, wait, pos) => Running(s, t) && t !in s.senders.woken && pos <= |s.receivers.waiting|
    case SendTimeout(k) => k < |s.senders.waiting|
    case RecvTimeout(k) => k < |s.receivers.waiting|
    case Reset => true
  }

  function Next(s: State, step: Step): State
    requires Enabled(s, step)
  {
    match step
    case Send(t, v, wait, pos) =>
      if |s.mails| != s.size then
        s.(mails := s.mails + [v], senders := Back(s.senders, t), receivers := Wake(s.receivers))
      else s.(senders := if wait then Join(s.senders, pos, t) else Back(s.senders, t))
    case Urgent(t, v) =>
      if |s.mails| != s.size then s.(mails := [v] + s.mails, receivers := Wake(s.receivers)) else s
    case Recv(t, wait, pos) =>
      if s.mails != [] then
        s.(mails := s.mails[1..], receivers := Back(s.receivers, t), senders := Wake(s.senders))
      else s.(receivers := if wait then Join(s.receivers, pos, t) else Back(s.receivers, t))
    case SendTimeout(k) => s.(senders := Leave(s.senders, k))
    case RecvTimeout(k) => s.(receivers := Leave(s.receivers, k))
    case Reset => s.(mails := [], receivers := Dismiss(s.receivers), senders := Dismiss(s.senders))
  }

  /** Suspended threads are suspended once, and none of them has been resumed. */
  ghost predicate Apart(s: State) {
    Orderly(s.receivers) && Orderly(s.senders) && Strangers(s.receivers, s.senders)
  }

  /** While a receiver is suspended, every mail has a woken receiver on its way to it; while a sender is
      suspended, every empty slot has a woken sender. */
  ghost predicate NoLostWakeup(s: State) {
    Covered(s.receivers, |s.mails|) && Covered(s.senders, if |s.mails| < s.size then s.size - |s.mails| else 0)
  }

  ghost predicate Inv(s: State) {
    |s.mails| <= s.size && Apart(s) && NoLostWakeup(s)
  }

  ghost predicate Fresh(s: State) {
    s == State(s.size, [], EMPTY, EMPTY)
  }

  lemma FreshInv(s: State)
    requires Fresh(s)
    ensures Inv(s)
  {
  }

  lemma ApartStep(s: State, step: Step)
    requires Apart(s) && Enabled(s, step)
    ensures Apart(Next(s, step))
  {
    hide NoDup;
    match step {
      case Send(t, v, wait, pos) =>
        WakeKeeps(s.receivers, Back(s.senders, t));
        JoinKeeps(s.senders, s.receivers, pos, t);
      case Urgent(t, v) => WakeKeeps(s.receivers, s.senders);
      case Recv(t, wait, pos) =>
        WakeKeeps(s.senders, Back(s.receivers, t));
        JoinKeeps(s.receivers, s.senders, pos, t);
      case SendTimeout(k) => LeaveKeeps(s.senders, s.receivers, k);
      case RecvTimeout(k) => LeaveKeeps(s.receivers, s.senders, k);
      case Reset =>
        DismissKeeps(s.receivers, s.senders);
        DismissKeeps(s.senders, Dismiss(s.receivers));
    }
  }

  lemma WakeupStep(s: State, step: Step)
    requires Inv(s) && Enabled(s, step)
    ensures NoLostWakeup(Next(s, step))
  {
    var mails, slots := |s.mails|, s.size - |s.mails|;
    match step {
      case Send(t, v, wait, pos) =>
        WakeCovers(s.receivers, mails);
        if slots > 0 { BackCovers(s.senders, t, slots - 1); }
      case Urgent(t, v) => WakeCovers(s.receivers, mails);
      case Recv(t, wait, pos) =>
        WakeCovers(s.senders, slots);
        if mails > 0 { BackCovers(s.receivers, t, mails - 1); }
      case SendTimeout(k) => LeaveKeeps(s.senders, s.receivers, k);
      case RecvTimeout(k) => LeaveKeeps(s.receivers, s.senders, k);
      case Reset =>
    }
  }

  lemma StepInv(s: State, step: Step)
    requires Inv(s) && Enabled(s, step)
    ensures Inv(Next(s, step))
  {
    hide Apart, NoLostWakeup;
    ApartStep(s, step);
    WakeupStep(s, step);
  }

  ghost predicate Run(states: seq<State>, steps: seq<Step>) {
    && |states| == |steps| + 1
    && Fresh(states[0])
    && forall i :: 0 <= i < |steps| ==> Enabled(states[i], steps[i]) && states[i + 1] == Next(states[i], steps[i])
  }

  /** Over every interleaving of send, urgent send, receive, timeout and reset no wakeup is lost: once no
      woken thread is on its way, a suspended receiver means an empty mailbox, a suspended sender a full one. */
  lemma {:induction false} RunInv(states: seq<State>, steps: seq<Step>, i: nat)
    requires Run(states, steps) && i < |states|
    ensures Inv(states[i])
    ensures states[i].receivers.waiting != [] && states[i].receivers.woken == {} ==> states[i].mails == []
    ensures states[i].senders.waiting != [] && states[i].senders.woken == {} ==> |states[i].mails| == states[i].size
  {
    if i > 0 {
      hide Next, Enabled, Apart;
      RunInv(states, steps, i - 1);
      StepInv(states[i - 1], steps[i - 1]);
    }
  }

  /** An ideal mailbox that knows nothing of threads: what is sent while there is room goes in at the tail, or
      urgently at the head; a receive takes the head; a reset empties it. */
  function Posted(size: nat, steps: seq<Step>, i: nat): seq<int>
    requires i <= |steps|
  {
    if i == 0 then []
    else
      var posted := Posted(size, steps, i - 1);
      match steps[i - 1]
      case Send(_, v, _, _) => if |posted| < size then posted + [v] else posted
      case Urgent(_, v) => if |posted| < size then [v] + posted else posted
      case Recv(_, _, _) => if posted == [] then [] else posted[1..]
      case Reset => []
      case _ => posted
  }

  /** Over every interleaving the mailbox holds what the ideal one holds, in the same order. */
  lemma {:induction false} RunHoldsPosted(states: seq<State>, steps: seq<Step>, i: nat)
    requires Run(states, steps) && i < |states|
    ensures states[i].mails == Posted(states[0].size, steps, i) && states[i].size == states[0].size
  {
    if i > 0 {
      hide Enabled, Inv;
      RunHoldsPosted(states, steps, i - 1);
      RunInv(states, steps, i - 1);
      assert Inv(states[i - 1]);
      RoomLeft(states[i - 1]);
      assert states[i - 1 + 1] == Next(states[i - 1], steps[i - 1]) && Enabled(states[i - 1], steps[i - 1]);
    }
  }

  lemma RoomLeft(s: State)
    requires Inv(s)
    ensures |s.mails| <= s.size
  {
  }

  // ----- who waits -----

  /** The step takes thread t off the receivers' list: a mail wakes t first, or t times out, or everybody is sent
      away. */
  predicate LeavesReceivers(s: State, step: Step, t: nat) {
    match step
    case Send(_, _, _, _) => |s.mails| != s.size && s.receivers.waiting != [] && s.receivers.waiting[0] == t
    case Urgent(_, _) => |s.mails| != s.size && s.receivers.waiting != [] && s.receivers.waiting[0] == t
    case RecvTimeout(k) => k < |s.receivers.waiting| && s.receivers.waiting[k] == t
    case Reset => true
    case _ => false
  }

  predicate LeavesSenders(s: State, step: Step, t: nat) {
    match step
    case Recv(_, _, _) => s.mails != [] && s.senders.waiting != [] && s.senders.waiting[0] == t
    case SendTimeout(k) => k < |s.senders.waiting| && s.senders.waiting[k] == t
    case Reset => true
    case _ => false
  }

  lemma StepWaits(s: State, step: Step, t: nat, u: nat)
    requires Enabled(s, step)
    ensures !LeavesReceivers(s, step, t) && !LeavesReceivers(s, step, u) ==>
              StillWait(s.receivers.waiting, Next(s, step).receivers.waiting, t, u)
    ensures !LeavesSenders(s, step, t) && !LeavesSenders(s, step, u) ==>
              StillWait(s.senders.waiting, Next(s, step).senders.waiting, t, u)
  {
    hide Precedes;
    if !LeavesReceivers(s, step, t) && !LeavesReceivers(s, step, u) {
      match step {
        case Send(x, v, wait, pos) => if |s.mails| != s.size { WakeStays(s.receivers, t, u); }
        case Urgent(x, v) => if |s.mails| != s.size { WakeStays(s.receivers, t, u); }
        case Recv(x, wait, pos) => InsertStays(s.receivers.waiting, pos, x, t, u);
        case RecvTimeout(k) => RemoveStays(s.receivers.waiting, k, t, u);
        case _ =>
      }
    }
    if !LeavesSenders(s, step, t) && !LeavesSenders(s, step, u) {
      match step {
        case Send(x, v, wait, pos) => InsertStays(s.senders.waiting, pos, x, t, u);
        case Recv(x, wait, pos) => if s.mails != [] { WakeStays(s.senders, t, u); }
        case SendTimeout(k) => RemoveStays(s.senders.waiting, k, t, u);
        case _ =>
      }
    }
  }

  /** Over every run: receivers that wait go on waiting, in the same order, until each is woken as the first of the
      list, times out, or is sent away by a reset.  With t == u this says that no waiting thread is forgotten. */
  lemma {:induction false} ReceiversStay(states: seq<State>, steps: seq<Step>, i: nat, j: nat, t: nat, u: nat)
    requires Run(states, steps) && i <= j < |states|
    requires t in states[i].receivers.waiting && u in states[i].receivers.waiting
    requires forall k :: i <= k < j ==>
               !LeavesReceivers(states[k], steps[k], t) && !LeavesReceivers(states[k], steps[k], u)
    ensures t in states[j].receivers.waiting && u in states[j].receivers.waiting
    ensures Precedes(states[i].receivers.waiting, t, u) ==> Precedes(states[j].receivers.waiting, t, u)
  {
    hide Next, Enabled, Precedes, LeavesReceivers;
    if i < j {
      ReceiversStay(states, steps, i, j - 1, t, u);
      assert states[j - 1 + 1] == Next(states[j - 1], steps[j - 1]) && Enabled(states[j - 1], steps[j - 1]);
      StepWaits(states[j - 1], steps[j - 1], t, u);
    }
  }

  /** The same for senders. */
  lemma {:induction false} SendersStay(states: seq<State>, steps: seq<Step>, i: nat, j: nat, t: nat, u: nat)
    requires Run(states, steps) && i <= j < |states|
    requires t in states[i].senders.waiting && u in states[i].senders.waiting
    requires forall k :: i <= k < j ==> !LeavesSenders(states[k], steps[k], t) && !LeavesSenders(states[k], steps[k], u)
    ensures t in states[j].senders.waiting && u in states[j].senders.waiting
    ensures Precedes(states[i].senders.waiting, t, u) ==> Precedes(states[j].senders.waiting, t, u)
  {
    hide Next, Enabled, Precedes, LeavesSenders;
    if i < j {
      SendersStay(states, steps, i, j - 1, t, u);
      assert states[j - 1 + 1] == Next(states[j - 1], steps[j - 1]) && Enabled(states[j - 1], steps[j - 1]);
      StepWaits(states[j - 1], steps[j - 1], t, u);
    }
  }

  // ----- the ring -----

  /** Slot of the i-th mail. */
  function Slot(outOffset: nat, i: nat, size: nat): int {
    if outOffset + i < size then outOffset + i else outOffset + i - size
  }

  lemma SlotIsModular(outOffset: nat, i: nat, size: nat)
    requires outOffset < size && i <= size
    ensures Slot(outOffset, i, size) == (outOffset + i) % size
  {
    if outOffset + i >= size {
      OneTurn(outOffset + i - size, size);
    }
  }

  lemma OneTurn(x: nat, size: nat)
    requires x < size
    ensures (x + size) % size == x
  {
    var q, r := (x + size) / size, (x + size) % size;
    assert x + size == q * size + r;
    assert q == 1;
  }

  /** The pool holds the mails from out_offset on, wrapping at the end. */
  ghost predicate Ring(pool: seq<int>, outOffset: nat, mails: seq<int>) {
    && outOffset < |pool| && |mails| <= |pool|
    && forall i :: 0 <= i < |mails| ==> pool[Slot(outOffset, i, |pool|)] == mails[i]
  }

  lemma AppendRing(pool: seq<int>, outOffset: nat, mails: seq<int>, v: int)
    requires Ring(pool, outOffset, mails) && |mails| < |pool|
    ensures Ring(pool[Slot(outOffset, |mails|, |pool|) := v], outOffset, mails + [v])
  {
  }

  lemma PrependRing(pool: seq<int>, outOffset: nat, mails: seq<int>, v: int)
    requires Ring(pool, outOffset, mails) && |mails| < |pool|
    ensures var back := if outOffset > 0 then outOffset - 1 else |pool| - 1;
            Ring(pool[back := v], back, [v] + mails)
  {
    var back: nat := if outOffset > 0 then outOffset - 1 else |pool| - 1;
    var now, z := [v] + mails, pool[back := v];
    forall i | 0 <= i < |now| ensures z[Slot(back, i, |z|)] == now[i] {
      if i > 0 { assert Slot(back, i, |z|) == Slot(outOffset, i - 1, |z|) && now[i] == mails[i - 1]; }
    }
  }

  lemma PopRing(pool: seq<int>, outOffset: nat, mails: seq<int>)
    requires Ring(pool, outOffset, mails) && mails != []
    ensures pool[outOffset] == mails[0] && Ring(pool, Slot(outOffset, 1, |pool|), mails[1..])
    ensures Slot(Slot(outOffset, 1, |pool|), |mails| - 1, |pool|) == Slot(outOffset, |mails|, |pool|)
  {
    assert pool[Slot(outOffset, 0, |pool|)] == mails[0];
    var rest, out := mails[1..], Slot(outOffset, 1, |pool|);
    forall i | 0 <= i < |rest| ensures pool[Slot(out, i, |pool|)] == rest[i] {
      assert Slot(out, i, |pool|) == Slot(outOffset, i + 1, |pool|) && rest[i] == mails[i + 1];
    }
  }

  datatype Outcome = Done(value: int) | Suspended | Failed

  class Box {
    const size: nat
    const pool: array<int>
    var entry: nat
    var inOffset: nat
    var outOffset: nat
    var receivers: seq<nat>
    var senders: seq<nat>
    ghost var s: State

    ghost predicate Valid()
      reads this, pool
    {
      && size == s.size == pool.Length && 0 < size <= ENTRY_MAX && Inv(s)
      && Ring(pool[..], outOffset, s.mails) && entry == |s.mails|
      && inOffset == (outOffset + entry) % size
      && receivers == s.receivers.waiting && senders == s.senders.waiting
    }

    /** rt_mb_init. */
    constructor (size: nat)
      requires 0 < size <= ENTRY_MAX
      ensures Valid() && fresh(pool) && s == State(size, [], EMPTY, EMPTY)
    {
      hide Inv;
      this.size := size;
      pool := new int[size];
      entry, inOffset, outOffset := 0, 0, 0;
      receivers, senders := [], [];
      s := State(size, [], EMPTY, EMPTY);
      new;
      FreshInv(s);
      SlotIsModular(0, 0, size);
    }

    /** The region of rt_mb_send_wait, on entry or after being woken.  The overflow return is never taken. */
    method SendRegion(t: nat, value: int, wait: bool, prio: nat -> nat, flag: Flag) returns (o: Outcome)
      requires Valid() && Running(s, t) && t !in s.receivers.woken
      modifies this, pool
      ensures Valid() && s == Next(old(s), Send(t, value, wait, Place(old(senders), prio, prio(t), flag)))
      ensures o == if old(|s.mails|) != size then Done(value) else if wait then Suspended else Failed
      ensures s.mails == if o.Done? then old(s.mails) + [value] else old(s.mails)
      ensures o == Suspended ==> TookPlace(old(senders), senders, t, prio, flag)
      ensures o != Suspended ==> senders == old(senders)
      ensures receivers == if o.Done? && old(receivers) != [] then old(receivers)[1..] else old(receivers)
      ensures s.receivers.woken
              == old(s.receivers.woken) + if o.Done? && old(receivers) != [] then {old(receivers)[0]} else {}
      ensures s.senders.woken == old(s.senders.woken) - {t}
    {
      hide Apart, NoLostWakeup, Ring, TookPlace, Place, Insert;
      RingBounds(pool[..], outOffset, s.mails);
      ghost var step := Send(t, value, wait, Place(senders, prio, prio(t), flag));
      StepInv(s, step);
      SlotIsModular(outOffset, entry, size);
      if entry == size {
        if !wait {
          o := Failed;
        } else {
          SuspendTakesPlace(senders, prio, t, flag);
          var pos := FindPlace(senders, prio, prio(t), flag);
          senders := Insert(senders, pos, t);
          o := Suspended;
        }
      } else {
        AppendRing(pool[..], outOffset, s.mails, value);
        pool[inOffset] := value;
        inOffset := inOffset + 1;
        if inOffset >= size {
          inOffset := 0;
        }
        if entry < ENTRY_MAX {
          entry := entry + 1;
        } else {
          assert false;
          return Failed;
        }
        if receivers != [] {
          receivers := receivers[1..];
        }
        SlotIsModular(outOffset, entry, size);
        o := Done(value);
      }
      s := Next(s, step);
    }

    /** rt_mb_urgent. */
    method UrgentRegion(t: nat, value: int) returns (o: Outcome)
      requires Valid() && Enabled(s, Urgent(t, value))
      modifies this, pool
      ensures Valid() && s == Next(old(s), Urgent(t, value))
      ensures o == if old(|s.mails|) != size then Done(value) else Failed
      ensures s.mails == if o.Done? then [value] + old(s.mails) else old(s.mails)
      ensures receivers == if o.Done? && old(receivers) != [] then old(receivers)[1..] else old(receivers)
      ensures s.receivers.woken
              == old(s.receivers.woken) + if o.Done? && old(receivers) != [] then {old(receivers)[0]} else {}
      ensures senders == old(senders)
    {
      hide Apart, NoLostWakeup, Ring;
      RingBounds(pool[..], outOffset, s.mails);
      StepInv(s, Urgent(t, value));
      if entry == size {
        o := Failed;
      } else {
        SlotIsModular(outOffset, entry, size);
        PrependRing(pool[..], outOffset, s.mails, value);
        if outOffset > 0 {
          outOffset := outOffset - 1;
        } else {
          outOffset := size - 1;
        }
        pool[outOffset] := value;
        entry := entry + 1;
        if receivers != [] {
          receivers := receivers[1..];
        }
        SlotIsModular(outOffset, entry, size);
        o := Done(value);
      }
      s := Next(s, Urgent(t, value));
    }

    /** The region of rt_mb_recv, on entry or after being woken. */
    method RecvRegion(t: nat, wait: bool, prio: nat -> nat, flag: Flag) returns (o: Outcome)
      requires Valid() && Running(s, t) && t !in s.senders.woken
      modifies this
      ensures Valid() && s == Next(old(s), Recv(t, wait, Place(old(receivers), prio, prio(t), flag)))
      ensures o == if old(s.mails) != [] then Done(old(s.mails[0])) else if wait then Suspended else Failed
      ensures s.mails == if o.Done? then old(s.mails)[1..] else []
      ensures o == Suspended ==> TookPlace(old(receivers), receivers, t, prio, flag)
      ensures o != Suspended ==> receivers == old(receivers)
      ensures senders == if o.Done? && old(senders) != [] then old(senders)[1..] else old(senders)
      ensures s.senders.woken
              == old(s.senders.woken) + if o.Done? && old(senders) != [] then {old(senders)[0]} else {}
      ensures s.receivers.woken == old(s.receivers.woken) - {t}
    {
      hide Apart, NoLostWakeup, Ring, TookPlace, Place, Insert;
      ghost var step := Recv(t, wait, Place(receivers, prio, prio(t), flag));
      StepInv(s, step);
      if entry == 0 {
        if !wait {
          o := Failed;
        } else {
          SuspendTakesPlace(receivers, prio, t, flag);
          var pos := FindPlace(receivers, prio, prio(t), flag);
          receivers := Insert(receivers, pos, t);
          o := Suspended;
        }
      } else {
        RingBounds(pool[..], outOffset, s.mails);
        SlotIsModular(outOffset, entry, size);
        PopRing(pool[..], outOffset, s.mails);
        o := Done(pool[outOffset]);
        outOffset := outOffset + 1;
        if outOffset >= size {
          outOffset := 0;
        }
        if entry > 0 {
          entry := entry - 1;
        }
        if senders != [] {
          senders := senders[1..];
        }
        SlotIsModular(outOffset, entry, size);
      }
      s := Next(s, step);
    }

    method TimeOutSender(k: nat)
      requires Valid() && k < |senders|
      modifies this
      ensures Valid() && s == Next(old(s), SendTimeout(k))
      ensures senders == old(senders)[..k] + old(senders)[k + 1..] && receivers == old(receivers)
    {
      StepInv(s, SendTimeout(k));
      senders := Remove(senders, k);
      s := Next(s, SendTimeout(k));
    }

    method TimeOutReceiver(k: nat)
      requires Valid() && k < |receivers|
      modifies this
      ensures Valid() && s == Next(old(s), RecvTimeout(k))
      ensures receivers == old(receivers)[..k] + old(receivers)[k + 1..] && senders == old(senders)
    {
      StepInv(s, RecvTimeout(k));
      receivers := Remove(receivers, k);
      s := Next(s, RecvTimeout(k));
    }

    /** rt_mb_control with RT_IPC_CMD_RESET. */
    method ResetRegion()
      requires Valid()
      modifies this
      ensures Valid() && s == Next(old(s), Reset)
      ensures s.mails == [] && receivers == senders == []
    {
      StepInv(s, Reset);
      receivers, senders := [], [];
      entry, inOffset, outOffset := 0, 0, 0;
      s := Next(s, Reset);
    }
  }

  lemma RingBounds(pool: seq<int>, outOffset: nat, mails: seq<int>)
    requires Ring(pool, outOffset, mails)
    ensures outOffset < |pool|
  {
  }
}
