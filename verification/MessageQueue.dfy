/** The message queue of ipc.c as a step machine.  Every region between rt_hw_interrupt_disable and
    rt_hw_interrupt_enable is one step; sending and receiving are two such regions with a copy between
    them, during which the thread holds a node that is on neither list. */
module MessageQueue {
  import opened WaitList
  import opened Wakeup

  const NULL := -1
  const ENTRY_MAX: nat := 65535    // RT_MQ_ENTRY_MAX

  type Message = seq<int>

  /** What a thread does with the node it holds between its two critical regions. */
  datatype Stage = Grabbed(urgent: bool) | Filled(urgent: bool) | Taken | Copied

  /** A held node and the message it is held for. */
  datatype Held = Held(node: nat, msg: Message, stage: Stage)

  datatype State = State(
    max: nat,                  // max_msgs
    msgSize: nat,              // msg_size
    queue: seq<nat>,           // nodes from msg_queue_head on
    free: seq<nat>,            // nodes from msg_queue_free on
    data: seq<Message>,        // what follows each node's header
    held: map<nat, Held>,      // by thread
    receivers: Line,           // parent.suspend_thread
    senders: Line              // suspend_sender_thread
  )

  /** `wait` says whether the timeout still allows to wait; `pos` is where _ipc_list_suspend inserts. */
  datatype Step =
    | Send(t: nat, msg: Message, wait: bool, pos: nat)
    | Urgent(t: nat, msg: Message)
    | Fill(t: nat)
    | Link(t: nat)
    | Recv(t: nat, wait: bool, pos: nat)
    | Copy(t: nat)
    | Release(t: nat)
    | SendTimeout(k: nat)
    | RecvTimeout(k: nat)
    | Reset

  // ----- the steps -----

  /** Threads that are not suspended on this queue and hold none of its nodes. */
  predicate Running(s: State, t: nat) {
    t !in s.receivers.waiting && t !in s.senders.waiting && t !in s.held
  }

  predicate Enabled(s: State, step: Step) {
    match step
    case Send(t, msg, wait, pos) => Running(s, t) && t !in s.receivers.woken && 0 < |msg| <= s.msgSize
      && pos <= |s.senders.waiting|
    case Urgent(t, msg) => Running(s, t) && t !in s.receivers.woken && t !in s.senders.woken && 0 < |msg| <= s.msgSize
    case Fill(t) => t in s.held && s.held[t].stage.Grabbed?
    case Link(t) => t in s.held && s.held[t].stage.Filled?
    case Recv(t, wait, pos) => Running(s, t) && t !in s.senders.woken && pos <= |s.receivers.waiting|
    case Copy(t) => t in s.held && s.held[t].stage.Taken?
    case Release(t) => t in s.held && s.held[t].stage.Copied?
    case SendTimeout(k) => k < |s.senders.waiting|
    case RecvTimeout(k) => k < |s.receivers.waiting|
    case Reset => true
  }

  function Reverse(list: seq<nat>): seq<nat> {
    if list == [] then [] else Reverse(list[1..]) + [list[0]]
  }

  /** The first free node becomes thread t's. */
  function Grab(s: State, t: nat, msg: Message, urgent: bool): State
    requires s.free != []
  {
    s.(free := s.free[1..], held := s.held[t := Held(s.free[0], msg, Grabbed(urgent))],
       senders := Back(s.senders, t))
  }

  /** rt_memcpy into the node. */
  function Written(was: Message, msg: Message): Message {
    if |msg| <= |was| then msg + was[|msg|..] else msg
  }

  function Next(s: State, step: Step): State
    requires Enabled(s, step)
  {
    match step
    case Send(t, msg, wait, pos) =>
      if s.free != [] then Grab(s, t, msg, false)
      else s.(senders := if wait then Join(s.senders, pos, t) else Back(s.senders, t))
    case Urgent(t, msg) =>
      if s.free != [] then Grab(s, t, msg, true) else s
    case Fill(t) =>
      var h := s.held[t];
      if h.node < |s.data| then
        s.(data := s.data[h.node := Written(s.data[h.node], h.msg)],
          held := s.held[t := h.(stage := Filled(h.stage.urgent))])
      else s
    case Link(t) =>
      var h := s.held[t];
      s.(held := s.held - {t}, queue := if h.stage.urgent then [h.node] + s.queue else s.queue + [h.node],
         receivers := Wake(s.receivers))
    case Recv(t, wait, pos) =>
      if s.queue != [] && s.queue[0] < |s.data| then
        s.(queue := s.queue[1..], held := s.held[t := Held(s.queue[0], s.data[s.queue[0]], Taken)],
           receivers := Back(s.receivers, t))
      else s.(receivers := if wait then Join(s.receivers, pos, t) else Back(s.receivers, t))
    case Copy(t) =>
      s.(held := s.held[t := s.held[t].(stage := Copied)])
    case Release(t) =>
      s.(held := s.held - {t}, free := [s.held[t].node] + s.free, senders := Wake(s.senders))
    case SendTimeout(k) => s.(senders := Leave(s.senders, k))
    case RecvTimeout(k) => s.(receivers := Leave(s.receivers, k))
    case Reset =>
      s.(queue := [], free := Reverse(s.queue) + s.free, receivers := Dismiss(s.receivers),
        senders := Dismiss(s.senders))
  }

  // ----- what every step keeps -----

  predicate HeldNode(held: map<nat, Held>, n: nat) {
    exists t :: t in held && held[t].node == n
  }

  /** Every node of the pool is in exactly one place: queue, free list, or one thread's hands. */
  ghost predicate Conserved(s: State) {
    && NoDup(s.queue + s.free)
    && (forall n: nat :: n in s.queue || n in s.free || HeldNode(s.held, n) <==> n < s.max)
    && (forall t :: t in s.held ==> s.held[t].node !in s.queue && s.held[t].node !in s.free)
    && (forall t, u :: t in s.held && u in s.held && t != u ==> s.held[t].node != s.held[u].node)
  }

  /** Held nodes carry the message they are held for: none is written by anybody else. */
  ghost predicate Texts(s: State) {
    && |s.data| == s.max
    && (forall n :: 0 <= n < |s.data| ==> |s.data[n]| == s.msgSize)
    && (forall t :: t in s.held ==> Carries(s, s.held[t]))
  }

  ghost predicate Carries(s: State, h: Held) {
    && h.node < |s.data|
    && (h.stage.Grabbed? ==> |h.msg| <= s.msgSize)
    && (h.stage.Filled? ==> h.msg <= s.data[h.node])
    && (h.stage.Taken? || h.stage.Copied? ==> s.data[h.node] == h.msg)
  }

  /** Suspended threads are suspended once, hold nothing, and none of them has been resumed. */
  ghost predicate Apart(s: State) {
    && Orderly(s.receivers) && Orderly(s.senders) && Strangers(s.receivers, s.senders)
    && forall t :: t in s.held ==> t !in s.receivers.waiting && t !in s.senders.waiting
  }

  /** While a receiver is suspended, every queued message has a woken receiver on its way to it;
      while a sender is suspended, every free node has a woken sender. */
  ghost predicate NoLostWakeup(s: State) {
    Covered(s.receivers, |s.queue|) && Covered(s.senders, |s.free|)
  }

  ghost predicate Inv(s: State) {
    Conserved(s) && Texts(s) && Apart(s) && NoLostWakeup(s)
  }

  /** The state after rt_mq_init. */
  ghost predicate Fresh(s: State) {
    && s.queue == [] && s.held == map[] && s.receivers == s.senders == EMPTY
    && NoDup(s.free) && (forall n: nat :: n in s.free <==> n < s.max)
    && |s.data| == s.max && forall n :: 0 <= n < |s.data| ==> |s.data[n]| == s.msgSize
  }

  lemma FreshInv(s: State)
    requires Fresh(s)
    ensures Inv(s)
  {
    assert s.queue + s.free == s.free;
    forall n: nat ensures !HeldNode(s.held, n) {
    }
  }

  lemma {:induction false} ReverseItems(list: seq<nat>)
    requires NoDup(list)
    ensures |Reverse(list)| == |list| && NoDup(Reverse(list))
    ensures forall n :: n in Reverse(list) <==> n in list
  {
    if list != [] {
      ReverseItems(list[1..]);
      var rest := Reverse(list[1..]);
      assert list == [list[0]] + list[1..];
      forall n ensures n in Reverse(list) <==> n in list {
        assert n in list <==> n == list[0] || n in list[1..];
      }
      assert list[0] !in list[1..];
    }
  }

  // ----- node conservation -----

  /** A node moves from the front of one list into a thread's hands. */
  lemma HeldOneMore(held: map<nat, Held>, t: nat, h: Held)
    requires t !in held
    ensures forall n: nat :: HeldNode(held[t := h], n) <==> HeldNode(held, n) || n == h.node
  {
    var now := held[t := h];
    forall n: nat ensures HeldNode(now, n) <==> HeldNode(held, n) || n == h.node {
      if HeldNode(held, n) {
        var u :| u in held && held[u].node == n;
        assert u in now && now[u].node == n;
      }
      if n == h.node { assert t in now && now[t].node == n; }
    }
  }

  lemma HeldOneLess(held: map<nat, Held>, t: nat)
    requires t in held
    requires forall u, v :: u in held && v in held && u != v ==> held[u].node != held[v].node
    ensures forall n: nat :: HeldNode(held - {t}, n) <==> HeldNode(held, n) && n != held[t].node
  {
    var now := held - {t};
    forall n: nat ensures HeldNode(now, n) <==> HeldNode(held, n) && n != held[t].node {
      if HeldNode(held, n) && n != held[t].node {
        var u :| u in held && held[u].node == n;
        assert u in now && now[u].node == n;
      }
    }
  }

  lemma HeldRestaged(held: map<nat, Held>, t: nat, h: Held)
    requires t in held && h.node == held[t].node
    ensures forall n: nat :: HeldNode(held[t := h], n) <==> HeldNode(held, n)
  {
    var now := held[t := h];
    forall n: nat ensures HeldNode(now, n) <==> HeldNode(held, n) {
      if HeldNode(held, n) {
        var u :| u in held && held[u].node == n;
        assert u in now && now[u].node == n;
      }
      if HeldNode(now, n) {
        var u :| u in now && now[u].node == n;
        assert u in held && held[u].node == n;
      }
    }
  }

  lemma ConservedStep(s: State, step: Step)
    requires Conserved(s) && Texts(s) && Apart(s) && Enabled(s, step)
    ensures Conserved(Next(s, step))
  {
    hide HeldNode;
    var z := Next(s, step);
    match step {
      case Send(t, msg, wait, pos) =>
        if s.free != [] { GrabConserved(s, t, msg, false); }
      case Urgent(t, msg) =>
        if s.free != [] { GrabConserved(s, t, msg, true); }
      case Fill(t) => RestageConserved(s, t, z);
      case Link(t) => LinkConserved(s, t);
      case Recv(t, wait, pos) => RecvConserved(s, t, wait, pos);
      case Copy(t) => RestageConserved(s, t, z);
      case Release(t) => ReleaseConserved(s, t);
      case SendTimeout(k) =>
      case RecvTimeout(k) =>
      case Reset => ResetConserved(s);
    }
  }

  lemma GrabConserved(s: State, t: nat, msg: Message, urgent: bool)
    requires Conserved(s) && t !in s.held && s.free != []
    ensures Conserved(Grab(s, t, msg, urgent))
  {
    hide HeldNode;
    var z := Grab(s, t, msg, urgent);
    var h := Held(s.free[0], msg, Grabbed(urgent));
    assert z.held == s.held[t := h];
    HeldOneMore(s.held, t, h);
    assert s.free == [s.free[0]] + s.free[1..];
    assert s.queue + s.free == s.queue + [s.free[0]] + z.free;
    DropMiddle(s.queue, s.free[0], z.free);
    FirstOrRest(s.free);
    forall n: nat ensures n in z.queue || n in z.free || HeldNode(z.held, n) <==> n < z.max {
      assert n in s.queue || n in s.free || HeldNode(s.held, n) <==> n < s.max;
      assert n in s.free <==> n == s.free[0] || n in z.free;
      assert HeldNode(z.held, n) <==> HeldNode(s.held, n) || n == s.free[0];
    }
  }

  lemma DropMiddle(a: seq<nat>, n: nat, b: seq<nat>)
    requires NoDup(a + [n] + b)
    ensures NoDup(a + b) && n !in a && n !in b
  {
    var all, now := a + [n] + b, a + b;
    forall i, j | 0 <= i < j < |now| ensures now[i] != now[j] {
      assert now[i] == all[if i < |a| then i else i + 1] && now[j] == all[if j < |a| then j else j + 1];
    }
    assert all[|a|] == n;
    forall i | 0 <= i < |a| ensures a[i] != n { assert all[i] == a[i]; }
    forall i | 0 <= i < |b| ensures b[i] != n { assert all[|a| + 1 + i] == b[i]; }
  }

  lemma AddMiddle(a: seq<nat>, n: nat, b: seq<nat>)
    requires NoDup(a + b) && n !in a && n !in b
    ensures NoDup(a + [n] + b)
  {
    var all, now := a + [n] + b, a + b;
    forall i, j | 0 <= i < j < |all| ensures all[i] != all[j] {
      assert i != |a| ==> all[i] == now[if i < |a| then i else i - 1];
      assert j != |a| ==> all[j] == now[if j < |a| then j else j - 1];
    }
  }

  lemma RestageConserved(s: State, t: nat, z: State)
    requires Conserved(s) && t in s.held && z.queue == s.queue && z.free == s.free && z.max == s.max
    requires z.held == s.held || exists h: Held :: h.node == s.held[t].node && z.held == s.held[t := h]
    ensures Conserved(z)
  {
    hide HeldNode;
    if z.held != s.held {
      var h: Held :| h.node == s.held[t].node && z.held == s.held[t := h];
      HeldRestaged(s.held, t, h);
    }
  }

  lemma LinkConserved(s: State, t: nat)
    requires Conserved(s) && Enabled(s, Link(t))
    ensures Conserved(Next(s, Link(t)))
  {
    hide HeldNode, NoDup;
    var n, z := s.held[t].node, Next(s, Link(t));
    HeldOneLess(s.held, t);
    HeldIs(s.held, t);
    assert n < s.max;
    LinkDistinct(s.queue, s.free, n);
    assert forall k :: k in z.queue <==> k == n || k in s.queue;
  }

  lemma LinkDistinct(queue: seq<nat>, free: seq<nat>, n: nat)
    requires NoDup(queue + free) && n !in queue && n !in free
    ensures NoDup([n] + queue + free) && NoDup(queue + [n] + free)
  {
    hide NoDup;
    AddMiddle([], n, queue + free);
    assert [] + (queue + free) == queue + free;
    assert [n] + queue + free == [] + [n] + (queue + free);
    AddMiddle(queue, n, free);
  }

  lemma HeldIs(held: map<nat, Held>, t: nat)
    requires t in held
    ensures HeldNode(held, held[t].node)
  {
  }

  lemma RecvConserved(s: State, t: nat, wait: bool, pos: nat)
    requires Conserved(s) && Enabled(s, Recv(t, wait, pos))
    ensures Conserved(Next(s, Recv(t, wait, pos)))
  {
    hide HeldNode;
    var z := Next(s, Recv(t, wait, pos));
    if s.queue != [] && s.queue[0] < |s.data| {
      var h := Held(s.queue[0], s.data[s.queue[0]], Taken);
      assert z.held == s.held[t := h];
      HeldOneMore(s.held, t, h);
      assert s.queue == [s.queue[0]] + s.queue[1..];
      assert s.queue + s.free == [] + [s.queue[0]] + (z.queue + s.free);
      DropMiddle([], s.queue[0], z.queue + s.free);
      assert [] + (z.queue + s.free) == z.queue + s.free;
      assert s.queue[0] !in z.queue + s.free;
      FirstOrRest(s.queue);
      forall n: nat ensures n in z.queue || n in z.free || HeldNode(z.held, n) <==> n < z.max {
        assert n in s.queue || n in s.free || HeldNode(s.held, n) <==> n < s.max;
        assert n in s.queue <==> n == s.queue[0] || n in z.queue;
        assert HeldNode(z.held, n) <==> HeldNode(s.held, n) || n == s.queue[0];
      }
    }
  }

  lemma ReleaseConserved(s: State, t: nat)
    requires Conserved(s) && Enabled(s, Release(t))
    ensures Conserved(Next(s, Release(t)))
  {
    hide HeldNode;
    var n, z := s.held[t].node, Next(s, Release(t));
    HeldOneLess(s.held, t);
    HeldIs(s.held, t);
    AddMiddle(s.queue, n, s.free);
    assert z.queue + z.free == s.queue + [n] + s.free;
  }

  lemma ResetConserved(s: State)
    requires Conserved(s)
    ensures Conserved(Next(s, Reset))
  {
    hide HeldNode, NoDup, Reverse;
    var z := Next(s, Reset);
    FrontDistinct(s.queue, s.free);
    ReverseItems(s.queue);
    ReversedDistinct(s);
    assert z.queue + z.free == z.free;
  }

  lemma FrontDistinct(a: seq<nat>, b: seq<nat>)
    requires NoDup(a + b)
    ensures NoDup(a)
  {
    assert forall i :: 0 <= i < |a| ==> (a + b)[i] == a[i];
  }

  lemma ReversedDistinct(s: State)
    requires NoDup(s.queue + s.free) && NoDup(s.queue) && NoDup(Reverse(s.queue)) && |Reverse(s.queue)| == |s.queue|
    requires forall n :: n in Reverse(s.queue) <==> n in s.queue
    ensures NoDup(Reverse(s.queue) + s.free)
  {
    var now := Reverse(s.queue) + s.free;
    forall i, j | 0 <= i < j < |now| ensures now[i] != now[j] {
      ResetApart(s, i, j);
    }
  }

  lemma ResetApart(s: State, i: nat, j: nat)
    requires NoDup(s.queue + s.free) && NoDup(s.queue) && NoDup(Reverse(s.queue)) && |Reverse(s.queue)| == |s.queue|
    requires forall n :: n in Reverse(s.queue) <==> n in s.queue
    requires i < j < |s.queue| + |s.free|
    ensures (Reverse(s.queue) + s.free)[i] != (Reverse(s.queue) + s.free)[j]
  {
    var all, now, q := s.queue + s.free, Reverse(s.queue) + s.free, |s.queue|;
    if j >= q {
      assert now[j] == all[j];
      if i >= q {
        assert now[i] == all[i];
      } else {
        assert now[i] in Reverse(s.queue);
        var k :| 0 <= k < q && s.queue[k] == now[i];
        assert all[k] == now[i];
      }
    }
  }

  // ----- contents, wait lists, wakeups -----

  lemma TextsStep(s: State, step: Step)
    requires Conserved(s) && Texts(s) && Enabled(s, step)
    ensures Texts(Next(s, step))
  {
    hide Conserved;
    var z := Next(s, step);
    match step {
      case Send(t, msg, wait, pos) =>
        if s.free != [] { GrabTexts(s, t, msg, false); }
      case Urgent(t, msg) =>
        if s.free != [] { GrabTexts(s, t, msg, true); }
      case Fill(t) => FillTexts(s, t);
      case Link(t) =>
      case Recv(t, wait, pos) =>
        forall u | u in z.held ensures Carries(z, z.held[u]) { assert u != t ==> Carries(s, s.held[u]); }
      case Copy(t) =>
        forall u | u in z.held ensures Carries(z, z.held[u]) { assert Carries(s, s.held[u]); }
      case Release(t) =>
      case SendTimeout(k) =>
      case RecvTimeout(k) =>
      case Reset =>
    }
  }

  lemma GrabTexts(s: State, t: nat, msg: Message, urgent: bool)
    requires Conserved(s) && Texts(s) && s.free != [] && |msg| <= s.msgSize
    ensures Texts(Grab(s, t, msg, urgent))
  {
    var z := Grab(s, t, msg, urgent);
    assert s.free[0] in s.free;
    forall u | u in z.held ensures Carries(z, z.held[u]) { assert u != t ==> Carries(s, s.held[u]); }
  }

  /** Filling writes only the thread's own node. */
  lemma FillTexts(s: State, t: nat)
    requires Conserved(s) && Texts(s) && Enabled(s, Fill(t))
    ensures Texts(Next(s, Fill(t)))
  {
    hide HeldNode;
    var z, h := Next(s, Fill(t)), s.held[t];
    assert Carries(s, h);
    forall u | u in z.held ensures Carries(z, z.held[u]) {
      if u != t { assert Carries(s, s.held[u]) && s.held[u].node != h.node; }
    }
  }

  lemma ApartStep(s: State, step: Step)
    requires Apart(s) && Enabled(s, step)
    ensures Apart(Next(s, step))
  {
    hide NoDup;
    match step {
      case Send(t, msg, wait, pos) => JoinKeeps(s.senders, s.receivers, pos, t);
      case Recv(t, wait, pos) => JoinKeeps(s.receivers, s.senders, pos, t);
      case Link(t) => WakeKeeps(s.receivers, s.senders);
      case Release(t) => WakeKeeps(s.senders, s.receivers);
      case SendTimeout(k) => LeaveKeeps(s.senders, s.receivers, k);
      case RecvTimeout(k) => LeaveKeeps(s.receivers, s.senders, k);
      case Reset =>
        DismissKeeps(s.receivers, s.senders);
        DismissKeeps(s.senders, Dismiss(s.receivers));
      case _ =>
    }
  }

  lemma WakeupStep(s: State, step: Step)
    requires Texts(s) && Conserved(s) && Apart(s) && NoLostWakeup(s) && Enabled(s, step)
    ensures NoLostWakeup(Next(s, step))
  {
    hide NoDup, HeldNode, Carries;
    match step {
      case Link(t) => WakeCovers(s.receivers, |s.queue|);
      case Release(t) => WakeCovers(s.senders, |s.free|);
      case Send(t, msg, wait, pos) =>
        if s.free != [] { BackCovers(s.senders, t, |s.free| - 1); }
      case Recv(t, wait, pos) =>
        if s.queue != [] {
          QueueInPool(s);
          BackCovers(s.receivers, t, |s.queue| - 1);
        }
      case Urgent(t, msg) =>
        if s.free != [] { BackCovers(s.senders, t, |s.free| - 1); }
      case SendTimeout(k) => LeaveKeeps(s.senders, s.receivers, k);
      case RecvTimeout(k) => LeaveKeeps(s.receivers, s.senders, k);
      case Reset =>
        DismissKeeps(s.receivers, s.senders);
        DismissKeeps(s.senders, s.receivers);
      case _ =>
    }
  }

  lemma QueueInPool(s: State)
    requires Conserved(s) && s.queue != []
    ensures s.queue[0] < s.max
  {
    hide HeldNode;
    assert s.queue[0] in s.queue;
  }

  // ----- main results -----

  lemma StepInv(s: State, step: Step)
    requires Inv(s) && Enabled(s, step)
    ensures Inv(Next(s, step))
  {
    hide Conserved, Texts, Apart, NoLostWakeup, Next, Enabled;
    ConservedStep(s, step);
    TextsStep(s, step);
    ApartStep(s, step);
    WakeupStep(s, step);
  }

  /** The states of a run. */
  ghost predicate Run(states: seq<State>, steps: seq<Step>) {
    && |states| == |steps| + 1
    && Fresh(states[0])
    && forall i :: 0 <= i < |steps| ==> Enabled(states[i], steps[i]) && states[i + 1] == Next(states[i], steps[i])
  }

  /** Over every interleaving: nodes are conserved, held nodes keep their bytes, no wakeup is lost. */
  lemma {:induction false} RunInv(states: seq<State>, steps: seq<Step>, i: nat)
    requires Run(states, steps) && i < |states|
    ensures Inv(states[i])
  {
    hide Inv, Next, Enabled, Fresh;
    if i == 0 {
      FreshInv(states[0]);
    } else {
      RunInv(states, steps, i - 1);
      StepInv(states[i - 1], steps[i - 1]);
    }
  }

  /** Once no woken thread is on its way, a suspended receiver means an empty queue and a suspended sender
      means that no node is free. */
  lemma QuietMeansBlockedForAReason(s: State)
    requires Inv(s)
    ensures s.receivers.woken == {} && s.receivers.waiting != [] ==> s.queue == []
    ensures s.senders.woken == {} && s.senders.waiting != [] ==> s.free == []
  {
    hide Conserved, Texts, Apart;
  }

  /** The overflow branches are dead: a node about to be linked is not in the queue, so there is room. */
  lemma NoOverflow(s: State, t: nat)
    requires Inv(s) && s.max <= ENTRY_MAX && Enabled(s, Link(t))
    ensures |s.queue| < s.max && |s.queue| < ENTRY_MAX
  {
    hide HeldNode, Texts, Apart, NoLostWakeup;
    var n, all := s.held[t].node, s.queue + [s.held[t].node];
    assert n < s.max by { HeldIs(s.held, t); }
    forall i, j | 0 <= i < j < |all| ensures all[i] != all[j] {
      if j < |s.queue| { assert (s.queue + s.free)[i] == all[i] && (s.queue + s.free)[j] == all[j]; }
    }
    forall k | 0 <= k < |all| ensures all[k] < s.max {
      if k < |s.queue| { assert s.queue[k] in s.queue; }
    }
    Pigeonhole(all, s.max);
  }

  // ----- the queue as a sequence of messages -----

  /** What the queued nodes hold, head first. */
  ghost function Pending(s: State): seq<Message> {
    seq(|s.queue|, i requires 0 <= i < |s.queue| => if s.queue[i] < |s.data| then s.data[s.queue[i]] else [])
  }

  /** The same steps on a plain double-ended queue of messages. */
  ghost predicate QueueStep(before: seq<Message>, after: seq<Message>, s: State, step: Step)
    requires Enabled(s, step)
  {
    match step
    case Link(t) =>
      t in s.held && s.held[t].stage.Filled? && exists m ::
        |m| == s.msgSize && s.held[t].msg <= m && after == if s.held[t].stage.urgent then [m] + before else before + [m]
    case Recv(t, wait, pos) =>
      if before == [] then after == []
      else after == before[1..] && t in Next(s, step).held && Next(s, step).held[t].msg == before[0]
    case Reset => after == []
    case _ => after == before
  }

  /** Messages are received in link order, urgent ones first, with the bytes that were sent: sends append the
      sent bytes (padded by what the node held before), urgent sends prepend, receives take the first. */
  lemma OrderKept(s: State, step: Step)
    requires Inv(s) && Enabled(s, step)
    ensures QueueStep(Pending(s), Pending(Next(s, step)), s, step)
  {
    hide Conserved, Texts, Apart, NoLostWakeup, Pending;
    match step {
      case Link(t) => LinkOrder(s, t);
      case Recv(t, wait, pos) => RecvOrder(s, t, wait, pos);
      case Fill(t) => FillOrder(s, t);
      case Reset => SameOrder(s.(queue := []), Next(s, step)); NothingPending(s.(queue := []));
      case _ => SameOrder(s, Next(s, step));
    }
  }

  lemma SameOrder(s: State, z: State)
    requires s.queue == z.queue && s.data == z.data
    ensures Pending(s) == Pending(z)
  {
  }

  lemma NothingPending(s: State)
    ensures Pending(s) == [] <==> s.queue == []
  {
  }

  lemma LinkOrder(s: State, t: nat)
    requires Inv(s) && Enabled(s, Link(t))
    ensures QueueStep(Pending(s), Pending(Next(s, Link(t))), s, Link(t))
  {
    hide Conserved, Apart, NoLostWakeup;
    var h := s.held[t];
    assert Carries(s, h);
    var m := s.data[h.node];
    assert Pending(Next(s, Link(t))) == if h.stage.urgent then [m] + Pending(s) else Pending(s) + [m];
  }

  lemma RecvOrder(s: State, t: nat, wait: bool, pos: nat)
    requires Inv(s) && Enabled(s, Recv(t, wait, pos))
    ensures QueueStep(Pending(s), Pending(Next(s, Recv(t, wait, pos))), s, Recv(t, wait, pos))
  {
    hide Apart, NoLostWakeup;
    if s.queue != [] {
      QueueInPool(s);
      assert Pending(Next(s, Recv(t, wait, pos))) == Pending(s)[1..];
    }
  }

  lemma FillOrder(s: State, t: nat)
    requires Inv(s) && Enabled(s, Fill(t))
    ensures Pending(Next(s, Fill(t))) == Pending(s)
  {
    hide HeldNode, Apart, NoLostWakeup;
    assert Carries(s, s.held[t]);
    forall i | 0 <= i < |s.queue| ensures s.queue[i] != s.held[t].node { assert s.queue[i] in s.queue; }
  }

  /** The bytes the copy of a receive yields for a buffer of `size` bytes. */
  function Received(s: State, t: nat, size: nat): Message
    requires t in s.held && s.held[t].node < |s.data|
  {
    var d := s.data[s.held[t].node];
    d[..if size > |d| then |d| else size]
  }

  lemma CopyBytes(s: State, t: nat, size: nat)
    requires Inv(s) && t in s.held && (s.held[t].stage.Taken? || s.held[t].stage.Copied?)
    ensures s.held[t].node < |s.data| && |s.held[t].msg| == s.msgSize
    ensures Received(s, t, size) == s.held[t].msg[..if size > s.msgSize then s.msgSize else size]
  {
    hide Conserved, Apart, NoLostWakeup;
    assert Carries(s, s.held[t]);
  }

  /** Nobody touches what a receiving thread holds until it releases it. */
  lemma TakenStays(s: State, step: Step, t: nat)
    requires Enabled(s, step) && t in s.held && (s.held[t].stage.Taken? || s.held[t].stage.Copied?)
             && step != Release(t)
    ensures var z := Next(s, step);
            t in z.held && (z.held[t].stage.Taken? || z.held[t].stage.Copied?) && z.held[t].msg == s.held[t].msg
  {
  }

  /** The thread that takes a node at step i holds the message then at the head of the queue until it
      releases the node, whatever the other threads do in between. */
  lemma {:induction false} TakenIsHead(states: seq<State>, steps: seq<Step>, i: nat, j: nat, t: nat, wait: bool,
      pos: nat)
    requires Run(states, steps) && i < j < |states| && steps[i] == Recv(t, wait, pos) && Pending(states[i]) != []
    requires forall k :: i <= k < j ==> steps[k] != Release(t)
    ensures t in states[j].held && (states[j].held[t].stage.Taken? || states[j].held[t].stage.Copied?)
    ensures states[j].held[t].msg == Pending(states[i])[0]
  {
    hide Next, Enabled, Inv, Fresh, Conserved;
    if j == i + 1 {
      RunInv(states, steps, i);
      TakesHead(states[i], t, wait, pos);
    } else {
      TakenIsHead(states, steps, i, j - 1, t, wait, pos);
      TakenStays(states[j - 1], steps[j - 1], t);
    }
  }

  lemma TakesHead(s: State, t: nat, wait: bool, pos: nat)
    requires Inv(s) && Enabled(s, Recv(t, wait, pos)) && Pending(s) != []
    ensures var z := Next(s, Recv(t, wait, pos));
            t in z.held && z.held[t].stage.Taken? && z.held[t].msg == Pending(s)[0]
  {
    QueueInPool(s);
  }

  /** So a receive copies out the message at the head of the queue, cut to the caller's buffer. */
  lemma ReceiveYieldsHead(states: seq<State>, steps: seq<Step>, i: nat, j: nat, t: nat, wait: bool, pos: nat, size: nat)
    requires Run(states, steps) && i < j < |states| && steps[i] == Recv(t, wait, pos) && Pending(states[i]) != []
    requires forall k :: i <= k < j ==> steps[k] != Release(t)
    ensures t in states[j].held && states[j].held[t].node < |states[j].data|
            && |Pending(states[i])[0]| == states[j].msgSize
    ensures Received(states[j], t, size)
            == Pending(states[i])[0][..if size > states[j].msgSize then states[j].msgSize else size]
  {
    TakenIsHead(states, steps, i, j, t, wait, pos);
    RunInv(states, steps, j);
    hide Run, Inv, Pending;
    CopyBytes(states[j], t, size);
  }

  // ----- who waits -----

  /** The step takes thread t off the receivers' list: it wakes t first, or t times out, or everybody is sent away. */
  predicate LeavesReceivers(s: State, step: Step, t: nat) {
    match step
    case Link(_) => s.receivers.waiting != [] && s.receivers.waiting[0] == t
    case RecvTimeout(k) => k < |s.receivers.waiting| && s.receivers.waiting[k] == t
    case Reset => true
    case _ => false
  }

  predicate LeavesSenders(s: State, step: Step, t: nat) {
    match step
    case Release(_) => s.senders.waiting != [] && s.senders.waiting[0] == t
    case SendTimeout(k) => k < |s.senders.waiting| && s.senders.waiting[k] == t
    case Reset => true
    case _ => false
  }

  lemma StepWaits(s: State, step: Step, t: nat, u: nat)
    requires Enabled(s, step)
    ensures !LeavesReceivers(s, step, t) && !LeavesReceivers(s, step, u) ==>
              StillWait(s.receivers.waiting, Next(s, step).receivers.waiting, t, u)
    ensures !LeavesSenders(s, step, t) && !LeavesSenders(s, step, u) ==>
              StillWait(s.senders.waiting, Next(s, step).senders.waiting, t, u)
  {
    hide Precedes;
    match step {
      case Send(x, msg, wait, pos) => InsertStays(s.senders.waiting, pos, x, t, u);
      case Recv(x, wait, pos) => InsertStays(s.receivers.waiting, pos, x, t, u);
      case Link(x) =>
        if !LeavesReceivers(s, step, t) && !LeavesReceivers(s, step, u) { WakeStays(s.receivers, t, u); }
      case Release(x) =>
        if !LeavesSenders(s, step, t) && !LeavesSenders(s, step, u) { WakeStays(s.senders, t, u); }
      case SendTimeout(k) =>
        if !LeavesSenders(s, step, t) && !LeavesSenders(s, step, u) { RemoveStays(s.senders.waiting, k, t, u); }
      case RecvTimeout(k) =>
        if !LeavesReceivers(s, step, t) && !LeavesReceivers(s, step, u) { RemoveStays(s.receivers.waiting, k, t, u); }
      case _ =>
    }
  }

  /** Over every run: receivers that wait go on waiting, in the same order, until each is woken as the first of the
      list, times out, or is sent away by a reset.  With t == u this says that no waiting thread is forgotten. */
  lemma {:induction false} ReceiversStay(states: seq<State>, steps: seq<Step>, i: nat, j: nat, t: nat, u: nat)
    requires Run(states, steps) && i <= j < |states|
    requires t in states[i].receivers.waiting && u in states[i].receivers.waiting
    requires forall k :: i <= k < j ==>
               !LeavesReceivers(states[k], steps[k], t) && !LeavesReceivers(states[k], steps[k], u)
    ensures t in states[j].receivers.waiting && u in states[j].receivers.waiting
    ensures Precedes(states[i].receivers.waiting, t, u) ==> Precedes(states[j].receivers.waiting, t, u)
  {
    hide Next, Enabled, Fresh, Precedes, LeavesReceivers;
    if i < j {
      ReceiversStay(states, steps, i, j - 1, t, u);
      assert states[j - 1 + 1] == Next(states[j - 1], steps[j - 1]) && Enabled(states[j - 1], steps[j - 1]);
      StepWaits(states[j - 1], steps[j - 1], t, u);
    }
  }

  /** The same for senders. */
  lemma {:induction false} SendersStay(states: seq<State>, steps: seq<Step>, i: nat, j: nat, t: nat, u: nat)
    requires Run(states, steps) && i <= j < |states|
    requires t in states[i].senders.waiting && u in states[i].senders.waiting
    requires forall k :: i <= k < j ==> !LeavesSenders(states[k], steps[k], t) && !LeavesSenders(states[k], steps[k], u)
    ensures t in states[j].senders.waiting && u in states[j].senders.waiting
    ensures Precedes(states[i].senders.waiting, t, u) ==> Precedes(states[j].senders.waiting, t, u)
  {
    hide Next, Enabled, Fresh, Precedes, LeavesSenders;
    if i < j {
      SendersStay(states, steps, i, j - 1, t, u);
      assert states[j - 1 + 1] == Next(states[j - 1], steps[j - 1]) && Enabled(states[j - 1], steps[j - 1]);
      StepWaits(states[j - 1], steps[j - 1], t, u);
    }
  }

  // ----- from the sender's bytes to the receiver's -----

  datatype Call = NoCall | Call(urgent: bool, msg: Message)

  /** The last send, urgent or not, that thread t began among the first i steps. */
  function LastCall(steps: seq<Step>, i: nat, t: nat): Call
    requires i <= |steps|
  {
    if i == 0 then NoCall
    else match steps[i - 1]
      case Send(u, msg, _, _) => if u == t then Call(false, msg) else LastCall(steps, i - 1, t)
      case Urgent(u, msg) => if u == t then Call(true, msg) else LastCall(steps, i - 1, t)
      case _ => LastCall(steps, i - 1, t)
  }

  /** An ideal queue that knows nothing of nodes and copies: the end of a send puts in the very message the thread's
      last call was given, at the tail or urgently at the head; a receive takes the head; a reset empties it. */
  function Sent(steps: seq<Step>, i: nat): seq<Message>
    requires i <= |steps|
  {
    if i == 0 then []
    else
      var sent := Sent(steps, i - 1);
      match steps[i - 1]
      case Link(t) =>
        (match LastCall(steps, i - 1, t)
         case NoCall => sent
         case Call(urgent, msg) => if urgent then [msg] + sent else sent + [msg])
      case Recv(_, _, _) => if sent == [] then [] else sent[1..]
      case Reset => []
      case _ => sent
  }

  /** A thread between the two regions of a send holds its node for the message of its last call. */
  ghost predicate Given(s: State, steps: seq<Step>, i: nat) {
    i <= |steps| && forall t :: t in s.held && (s.held[t].stage.Grabbed? || s.held[t].stage.Filled?) ==>
      LastCall(steps, i, t) == Call(s.held[t].stage.urgent, s.held[t].msg)
  }

  lemma GivenStep(s: State, steps: seq<Step>, i: nat)
    requires i < |steps| && Given(s, steps, i) && Enabled(s, steps[i])
    ensures Given(Next(s, steps[i]), steps, i + 1)
  {
  }

  /** Over every interleaving: what a send has in hand until its message is linked is what its caller passed. */
  lemma {:induction false} RunGiven(states: seq<State>, steps: seq<Step>, i: nat)
    requires Run(states, steps) && i < |states|
    ensures Given(states[i], steps, i)
  {
    hide Next, Enabled, LastCall;
    if i > 0 {
      RunGiven(states, steps, i - 1);
      assert states[i - 1 + 1] == Next(states[i - 1], steps[i - 1]) && Enabled(states[i - 1], steps[i - 1]);
      GivenStep(states[i - 1], steps, i - 1);
    }
  }

  /** As many messages, in the same order, each with the sent bytes in front. */
  ghost predicate Hold(pending: seq<Message>, sent: seq<Message>) {
    |pending| == |sent| && forall k :: 0 <= k < |sent| ==> sent[k] <= pending[k]
  }

  lemma HoldStep(s: State, steps: seq<Step>, i: nat)
    requires i < |steps| && Inv(s) && Given(s, steps, i) && Enabled(s, steps[i]) && Hold(Pending(s), Sent(steps, i))
    ensures Hold(Pending(Next(s, steps[i])), Sent(steps, i + 1))
  {
    hide Inv, Pending, Next, LastCall;
    OrderKept(s, steps[i]);
  }

  /** Over every interleaving the nodes on the queue hold what the ideal queue holds. */
  lemma {:induction false} RunHoldsSent(states: seq<State>, steps: seq<Step>, i: nat)
    requires Run(states, steps) && i < |states|
    ensures Hold(Pending(states[i]), Sent(steps, i))
  {
    hide Next, Enabled, LastCall, Inv, Given, Hold;
    if i == 0 {
      NothingHeld(states[0], steps);
    } else {
      RunHoldsSent(states, steps, i - 1);
      RunInv(states, steps, i - 1);
      RunGiven(states, steps, i - 1);
      assert states[i - 1 + 1] == Next(states[i - 1], steps[i - 1]) && Enabled(states[i - 1], steps[i - 1]);
      HoldStep(states[i - 1], steps, i - 1);
    }
  }

  lemma NothingHeld(s: State, steps: seq<Step>)
    requires s.queue == []
    ensures Hold(Pending(s), Sent(steps, 0))
  {
  }

  /** End to end: a receive finds a message iff the ideal queue has one, and then copies out the bytes the sender
      passed, up to their number or the size of the buffer, whatever the other threads do in between. */
  lemma ReceivedAsSent(states: seq<State>, steps: seq<Step>, i: nat, j: nat, t: nat, wait: bool, pos: nat, size: nat)
    requires Run(states, steps) && i < j < |states| && steps[i] == Recv(t, wait, pos)
    requires forall k :: i <= k < j ==> steps[k] != Release(t)
    ensures states[i].queue != [] <==> Sent(steps, i) != []
    ensures Sent(steps, i) != [] ==>
              && t in states[j].held && states[j].held[t].node < |states[j].data|
              && var m, r := Sent(steps, i)[0], Received(states[j], t, size);
                 var n := if size < |m| then size else |m|;
                 |r| >= n && r[..n] == m[..n]
  {
    hide Next, Enabled, Inv, Pending;
    RunHoldsSent(states, steps, i);
    NothingPending(states[i]);
    if Sent(steps, i) != [] {
      ReceiveYieldsHead(states, steps, i, j, t, wait, pos, size);
    }
  }

  // ----- the nodes in memory -----

  function Item(nodes: seq<nat>, k: nat): int {
    if k < |nodes| then nodes[k] else NULL
  }

  /** The list that starts at `first` runs through `nodes` and ends there. */
  ghost predicate Linked(next: seq<int>, first: int, nodes: seq<nat>) {
    && first == Item(nodes, 0)
    && forall k :: 0 <= k < |nodes| ==> nodes[k] < |next| && next[nodes[k]] == Item(nodes, k + 1)
  }

  lemma PopLinked(next: seq<int>, first: int, nodes: seq<nat>)
    requires Linked(next, first, nodes) && nodes != []
    ensures 0 <= first < |next| && first == nodes[0] && Linked(next, next[first], nodes[1..])
  {
    var rest := nodes[1..];
    forall k | 0 <= k < |rest| ensures rest[k] < |next| && next[rest[k]] == Item(rest, k + 1) {
      assert rest[k] == nodes[k + 1];
    }
  }

  lemma PushLinked(next: seq<int>, first: int, nodes: seq<nat>, n: nat)
    requires Linked(next, first, nodes) && n < |next| && n !in nodes
    ensures Linked(next[n := first], n, [n] + nodes)
  {
    var now, v := [n] + nodes, next[n := first];
    forall k | 0 <= k < |now| ensures now[k] < |v| && v[now[k]] == Item(now, k + 1) {
      if k > 0 { assert now[k] == nodes[k - 1] && nodes[k - 1] in nodes; }
    }
  }

  lemma AppendLinked(next: seq<int>, first: int, nodes: seq<nat>, n: nat)
    requires Linked(next, first, nodes) && n < |next| && n !in nodes && next[n] == NULL && NoDup(nodes)
    ensures nodes == [] ==> Linked(next, n, [n])
    ensures nodes != [] ==> nodes[|nodes| - 1] < |next| && Linked(next[nodes[|nodes| - 1] := n], first, nodes + [n])
  {
    if nodes != [] {
      var now, v := nodes + [n], next[nodes[|nodes| - 1] := n];
      forall k | 0 <= k < |now| ensures now[k] < |v| && v[now[k]] == Item(now, k + 1) {
        if k < |nodes| - 1 { assert nodes[k] != nodes[|nodes| - 1]; }
        if k == |nodes| { assert nodes[k - 1] in nodes; }
      }
    }
  }

  /** Writing the link of a node that is not listed. */
  lemma OtherLinked(next: seq<int>, first: int, nodes: seq<nat>, n: nat, x: int)
    requires Linked(next, first, nodes) && n < |next| && n !in nodes
    ensures Linked(next[n := x], first, nodes)
  {
    forall k | 0 <= k < |nodes| ensures next[n := x][nodes[k]] == Item(nodes, k + 1) {
      assert nodes[k] in nodes;
    }
  }

  /** What a step finds out about the lists from conservation. */
  lemma PlacesApart(s: State)
    requires Conserved(s)
    ensures NoDup(s.queue) && NoDup(s.free)
    ensures forall n :: n in s.queue ==> n < s.max && n !in s.free
    ensures forall n :: n in s.free ==> n < s.max
    ensures forall t :: t in s.held ==>
            s.held[t].node < s.max && s.held[t].node !in s.queue && s.held[t].node !in s.free
  {
    hide HeldNode;
    var all := s.queue + s.free;
    forall i, j | 0 <= i < j < |s.queue| ensures s.queue[i] != s.queue[j] {
      assert all[i] == s.queue[i] && all[j] == s.queue[j];
    }
    forall i, j | 0 <= i < j < |s.free| ensures s.free[i] != s.free[j] {
      assert all[|s.queue| + i] == s.free[i] && all[|s.queue| + j] == s.free[j];
    }
    forall i, j | 0 <= i < |s.queue| && 0 <= j < |s.free| ensures s.queue[i] != s.free[j] {
      assert all[i] == s.queue[i] && all[|s.queue| + j] == s.free[j];
    }
    forall t | t in s.held ensures s.held[t].node < s.max {
      HeldIs(s.held, t);
    }
  }

  function Last(nodes: seq<nat>): int {
    if nodes == [] then NULL else nodes[|nodes| - 1]
  }

  /** A node filled by rt_mq_send_wait ends its list of one. */
  ghost predicate Ended(next: seq<int>, held: map<nat, Held>) {
    forall t :: t in held && held[t].stage == Filled(false) ==> held[t].node < |next| && next[held[t].node] == NULL
  }

  lemma EndedFilled(next: seq<int>, s: State, t: nat)
    requires Ended(next, s.held) && Conserved(s) && Enabled(s, Fill(t)) && |next| == s.max
    ensures var h := s.held[t];
            && h.node < |next|
            && (h.stage.urgent ==> Ended(next, s.held[t := h.(stage := Filled(true))]))
            && (!h.stage.urgent ==> Ended(next[h.node := NULL], s.held[t := h.(stage := Filled(false))]))
  {
    HeldIs(s.held, t);
  }

  lemma FirstItem(next: seq<int>, first: int, nodes: seq<nat>)
    requires Linked(next, first, nodes)
    ensures first == Item(nodes, 0)
  {
  }

  /** The free list rt_mq_init builds. */
  function Descending(n: nat): seq<nat> {
    if n == 0 then [] else [n - 1] + Descending(n - 1)
  }

  lemma NothingLinked(next: seq<int>)
    ensures Linked(next, NULL, [])
  {
  }

  lemma FirstIsNew(n: nat, rest: seq<nat>)
    requires NoDup(rest) && n !in rest
    ensures NoDup([n] + rest) && forall k: nat :: k in [n] + rest <==> k == n || k in rest
  {
    hide NoDup;
    assert [] + rest == rest && [] + [n] + rest == [n] + rest;
    AddMiddle([], n, rest);
    assert ([n] + rest)[1..] == rest;
    FirstOrRest([n] + rest);
  }

  lemma {:induction false} DescendingItems(n: nat)
    ensures NoDup(Descending(n)) && forall k: nat :: k in Descending(n) <==> k < n
  {
    if n > 0 {
      DescendingItems(n - 1);
      FirstIsNew(n - 1, Descending(n - 1));
    }
  }

  lemma RestagedEnded(next: seq<int>, held: map<nat, Held>, t: nat)
    requires Ended(next, held) && t in held && held[t].stage.Taken?
    ensures Ended(next, held[t := held[t].(stage := Copied)])
  {
  }

  /** What linking a sent node does to the links. */
  lemma LinkFacts(next: seq<int>, head: int, freeHead: int, s: State, t: nat)
    requires Linked(next, head, s.queue) && Linked(next, freeHead, s.free) && Ended(next, s.held) && |next| == s.max
    requires Conserved(s) && t in s.held && s.held[t].stage == Filled(false)
    ensures var n, z := s.held[t].node, Next(s, Link(t));
            && n < |next| && Last(s.queue) < |next|
            && (s.queue == [] ==> Linked(next, n, z.queue) && Linked(next, freeHead, z.free) && Ended(next, z.held))
            && (s.queue != [] ==> Last(s.queue) >= 0
                                  && Linked(next[Last(s.queue) := n], head, z.queue)
                                  && Linked(next[Last(s.queue) := n], freeHead, z.free)
                                  && Ended(next[Last(s.queue) := n], z.held))
  {
    hide Linked, Conserved, NoDup;
    PlacesApart(s);
    var n := s.held[t].node;
    AppendLinked(next, head, s.queue, n);
    assert s.queue == [] ==> s.queue + [n] == [n];
    if s.queue != [] {
      var last := s.queue[|s.queue| - 1];
      assert last in s.queue;
      OtherLinked(next, freeHead, s.free, last, n);
    }
  }

  lemma UrgentFacts(next: seq<int>, head: int, freeHead: int, s: State, t: nat)
    requires Linked(next, head, s.queue) && Linked(next, freeHead, s.free) && Ended(next, s.held) && |next| == s.max
    requires Conserved(s) && t in s.held && s.held[t].stage == Filled(true)
    ensures var n, z := s.held[t].node, Next(s, Link(t));
            && n < |next|
            && Linked(next[n := head], n, z.queue) && Linked(next[n := head], freeHead, z.free)
            && Ended(next[n := head], z.held)
  {
    hide Linked, NoDup, HeldNode;
    PlacesApart(s);
    var n := s.held[t].node;
    PushLinked(next, head, s.queue, n);
    OtherLinked(next, freeHead, s.free, n, head);
  }

  lemma ReleaseFacts(next: seq<int>, head: int, freeHead: int, s: State, t: nat)
    requires Linked(next, head, s.queue) && Linked(next, freeHead, s.free) && Ended(next, s.held) && |next| == s.max
    requires Conserved(s) && Enabled(s, Release(t))
    ensures var n, z := s.held[t].node, Next(s, Release(t));
            && n < |next|
            && Linked(next[n := freeHead], head, z.queue) && Linked(next[n := freeHead], n, z.free)
            && Ended(next[n := freeHead], z.held)
  {
    hide Linked, Conserved, Ended;
    PlacesApart(s);
    ReleaseEnded(next, s, t, freeHead);
    var n := s.held[t].node;
    PushLinked(next, freeHead, s.free, n);
    OtherLinked(next, head, s.queue, n, freeHead);
  }

  lemma ReleaseEnded(next: seq<int>, s: State, t: nat, x: int)
    requires Conserved(s) && Ended(next, s.held) && t in s.held && s.held[t].node < |next|
    ensures Ended(next[s.held[t].node := x], s.held - {t})
  {
    hide HeldNode;
  }

  lemma RecvFacts(next: seq<int>, head: int, s: State, step: Step)
    requires Linked(next, head, s.queue) && Ended(next, s.held) && |next| == s.max == |s.data|
    requires Conserved(s) && step.Recv? && Enabled(s, step) && s.queue != []
    ensures var z := Next(s, step);
            && 0 <= head < |next| && head == s.queue[0] && z.queue == s.queue[1..] && Linked(next, next[head], z.queue)
            && Ended(next, z.held) && (Last(s.queue) == head <==> z.queue == [])
               && (z.queue != [] ==> Last(z.queue) == Last(s.queue))
  {
    PlacesApart(s);
    PopLinked(next, head, s.queue);
    QueueInPool(s);
  }

  lemma ResetStart(s: State)
    ensures Reverse(s.queue[..0]) + s.free == s.free
  {
  }

  lemma {:induction false} ReverseAppend(list: seq<nat>, n: nat)
    ensures Reverse(list + [n]) == [n] + Reverse(list)
  {
    if list == [] {
      assert list + [n] == [n];
    } else {
      assert (list + [n])[1..] == list[1..] + [n];
      ReverseAppend(list[1..], n);
    }
  }

  /** One turn of the reset loop. */
  lemma ResetFacts(next: seq<int>, head: int, freeHead: int, s: State, k: nat)
    requires Conserved(s) && |next| == s.max && k <= |s.queue| && head != NULL && Ended(next, s.held)
    requires Linked(next, head, s.queue[k..]) && Linked(next, freeHead, Reverse(s.queue[..k]) + s.free)
    ensures k < |s.queue| && 0 <= head < |next| && head == s.queue[k] && (head == Last(s.queue) <==> k + 1 == |s.queue|)
    ensures var v := next[head := freeHead];
            && Linked(v, next[head], s.queue[k + 1..])
            && Linked(v, head, [s.queue[k]] + (Reverse(s.queue[..k]) + s.free)) && Ended(v, s.held)
            && [s.queue[k]] + (Reverse(s.queue[..k]) + s.free) == Reverse(s.queue[..k + 1]) + s.free
  {
    hide Conserved, Linked, Reverse, Ended;
    FirstItem(next, head, s.queue[k..]);
    var n, rest, moved := s.queue[k], s.queue[k..], Reverse(s.queue[..k]) + s.free;
    assert rest[1..] == s.queue[k + 1..];
    ResetApartAt(s, k);
    EndedAt(next, s, n, freeHead);
    PopLinked(next, head, rest);
    OtherLinked(next, next[head], s.queue[k + 1..], n, freeHead);
    PushLinked(next, freeHead, moved, n);
    assert s.queue[..k + 1] == s.queue[..k] + [n];
    ReverseAppend(s.queue[..k], n);
    assert [n] + moved == ([n] + Reverse(s.queue[..k])) + s.free;
  }

  lemma EndedAt(next: seq<int>, s: State, n: nat, x: int)
    requires Conserved(s) && Ended(next, s.held) && n in s.queue && n < |next|
    ensures Ended(next[n := x], s.held)
  {
    hide HeldNode;
  }

  /** The node at the head is not among those moved already. */
  lemma ResetApartAt(s: State, k: nat)
    requires Conserved(s) && k < |s.queue|
    ensures var n := s.queue[k];
            && n < s.max && n in s.queue && n !in s.queue[k + 1..] && n !in Reverse(s.queue[..k]) + s.free
            && (n == Last(s.queue) <==> k + 1 == |s.queue|)
  {
    PlacesApart(s);
    hide Conserved, Reverse;
    assert s.queue[k] in s.queue;
    ReverseItems(s.queue[..k]);
    forall j | k + 1 <= j < |s.queue| ensures s.queue[j] != s.queue[k] {
    }
  }

  lemma ResetEnd(next: seq<int>, s: State, k: nat)
    requires k <= |s.queue| && Item(s.queue[k..], 0) == NULL
    ensures k == |s.queue| && s.queue[..k] == s.queue && Linked(next, NULL, [])
  {
  }

  datatype Outcome = Got(node: nat) | Suspended | Failed | TooLong

  class Queue {
    const maxMsgs: nat
    const msgSize: nat
    const next: array<int>
    const data: array<Message>
    var head: int
    var tail: int
    var freeHead: int
    var entry: nat
    var receivers: seq<nat>
    var senders: seq<nat>
    ghost var s: State

    /** The words in memory spell out the state. */
    ghost predicate Spells()
      reads this, next, data
    {
      && maxMsgs == s.max <= ENTRY_MAX && msgSize == s.msgSize
      && next.Length == data.Length == s.max && data[..] == s.data
      && Linked(next[..], head, s.queue) && Linked(next[..], freeHead, s.free) && Ended(next[..], s.held)
      && tail == Last(s.queue)
      && entry == |s.queue| && receivers == s.receivers.waiting && senders == s.senders.waiting
    }

    ghost predicate Valid()
      reads this, next, data
    {
      Spells() && Inv(s)
    }

    /** rt_mq_init: as many nodes as fit the pool, all free; both sizes are kept in 16 bits. */
    constructor (msgBytes: nat, poolBytes: nat)
      ensures Valid() && fresh(next) && fresh(data)
      ensures Fresh(s) && msgSize == (msgBytes + 3) / 4 * 4 % 65536 && maxMsgs == poolBytes / (msgSize + 4) % 65536
    {
      hide Inv, NoDup, Linked, Descending;
      var size: nat := (msgBytes + 3) / 4 * 4 % 65536;
      var max: nat := poolBytes / (size + 4) % 65536;
      var links, first := FreeList(max);
      msgSize := size;
      maxMsgs := max;
      next := links;
      data := new Message[max](_ => seq(size, _ => 0));
      head, tail, freeHead, entry := NULL, NULL, first, 0;
      receivers, senders := [], [];
      s := State(max, size, [], Descending(max), seq(max, _ => seq(size, _ => 0)), map[], EMPTY, EMPTY);
      new;
      DescendingItems(max);
      assert Linked(next[..], NULL, []) by { NothingLinked(next[..]); }
      assert data[..] == s.data;
      FreshInv(s);
    }

    static method FreeList(max: nat) returns (links: array<int>, first: int)
      ensures fresh(links) && links.Length == max && Linked(links[..], first, Descending(max))
    {
      hide NoDup;
      links := new int[max];
      first := NULL;
      for temp := 0 to max
        invariant Linked(links[..], first, Descending(temp))
      {
        DescendingItems(temp);
        PushLinked(links[..], first, Descending(temp), temp);
        links[temp] := first;
        first := temp;
      }
    }

    /** The first region of rt_mq_send_wait, on entry or after being woken. */
    method SendRegion(t: nat, msg: Message, wait: bool, prio: nat -> nat, flag: Flag) returns (o: Outcome)
      requires Valid() && Running(s, t) && t !in s.receivers.woken && |msg| > 0
      modifies this
      ensures Valid()
      ensures |msg| > msgSize ==> o == TooLong && unchanged(this)
      ensures |msg| <= msgSize ==> s == Next(old(s), Send(t, msg, wait, Place(old(senders), prio, prio(t), flag)))
      ensures |msg| <= msgSize ==> o == if old(s.free) != [] then Got(old(s.free[0])) else if wait then Suspended
              else Failed
      ensures o == Suspended ==> TookPlace(old(senders), senders, t, prio, flag)
      ensures o != Suspended ==> senders == old(senders)
      ensures receivers == old(receivers) && entry == old(entry)
      ensures |msg| <= msgSize ==> s.senders.woken == old(s.senders.woken) - {t}
    {
      hide Inv, Linked, Conserved, Ended, TookPlace, Place, Insert;
      if |msg| > msgSize {
        return TooLong;
      }
      ghost var step := Send(t, msg, wait, Place(senders, prio, prio(t), flag));
      StepInv(s, step);
      FirstItem(next[..], freeHead, s.free);
      if freeHead == NULL {
        if !wait {
          o := Failed;
        } else {
          SuspendTakesPlace(senders, prio, t, flag);
          var pos := FindPlace(senders, prio, prio(t), flag);
          senders := Insert(senders, pos, t);
          o := Suspended;
        }
      } else {
        o := GrabNode(t, msg, false);
      }
      s := Next(s, step);
    }

    /** Takes the first node off the free list. */
    method GrabNode(t: nat, msg: Message, urgent: bool) returns (o: Outcome)
      requires Valid() && t !in s.held && s.free != []
      modifies `freeHead
      ensures o == Got(s.free[0]) && Linked(next[..], freeHead, s.free[1..])
      ensures Ended(next[..], s.held[t := Held(s.free[0], msg, Grabbed(urgent))])
    {
      PopLinked(next[..], freeHead, s.free);
      o := Got(freeHead);
      freeHead := next[freeHead];
    }

    /** The first region of rt_mq_urgent. */
    method UrgentRegion(t: nat, msg: Message) returns (o: Outcome)
      requires Valid() && Running(s, t) && t !in s.receivers.woken && t !in s.senders.woken && |msg| > 0
      modifies this
      ensures Valid()
      ensures |msg| > msgSize ==> o == TooLong && unchanged(this)
      ensures |msg| <= msgSize ==> s == Next(old(s), Urgent(t, msg))
      ensures |msg| <= msgSize ==> o == if old(s.free) != [] then Got(old(s.free[0])) else Failed
      ensures receivers == old(receivers) && senders == old(senders) && entry == old(entry)
    {
      hide Inv, Linked, Conserved, Ended;
      if |msg| > msgSize {
        return TooLong;
      }
      StepInv(s, Urgent(t, msg));
      FirstItem(next[..], freeHead, s.free);
      if freeHead == NULL {
        o := Failed;
      } else {
        o := GrabNode(t, msg, true);
      }
      s := Next(s, Urgent(t, msg));
    }

    /** Between the regions of a send: the copy into the held node. */
    method FillNode(t: nat, node: nat, msg: Message, urgent: bool)
      requires Valid() && t in s.held && s.held[t] == Held(node, msg, Grabbed(urgent))
      modifies this`s, next, data
      ensures Valid() && s == Next(old(s), Fill(t))
    {
      hide Linked, Conserved, Ended, Texts, Apart, NoLostWakeup;
      StepInv(s, Fill(t));
      PlacesApart(s);
      OtherLinked(next[..], head, s.queue, node, NULL);
      OtherLinked(next[..], freeHead, s.free, node, NULL);
      EndedFilled(next[..], s, t);
      if !urgent {
        next[node] := NULL;
      }
      data[node] := Written(data[node], msg);
      s := Next(s, Fill(t));
    }

    /** The second region of rt_mq_send_wait: links the node at the tail.  The overflow return is never taken. */
    method LinkRegion(t: nat, node: nat) returns (ok: bool)
      requires Valid() && t in s.held && s.held[t].node == node && s.held[t].stage == Filled(false)
      modifies this, next
      ensures Valid() && ok && s == Next(old(s), Link(t))
      ensures receivers == if old(receivers) == [] then [] else old(receivers)[1..]
      ensures s.receivers.woken
              == old(s.receivers.woken) + if old(receivers) == [] then {} else {old(receivers)[0]}
      ensures senders == old(senders) && entry == old(entry) + 1
    {
      hide Linked, Conserved, Ended, Texts, Apart, NoLostWakeup;
      StepInv(s, Link(t));
      NoOverflow(s, t);
      LinkFacts(next[..], head, freeHead, s, t);
      FirstItem(next[..], head, s.queue);
      if tail != NULL {
        next[tail] := node;
      }
      tail := node;
      if head == NULL {
        head := node;
      }
      if entry < ENTRY_MAX {
        entry := entry + 1;
      } else {
        assert false;
        return false;
      }
      if receivers != [] {
        receivers := receivers[1..];
      }
      s := Next(s, Link(t));
      ok := true;
    }

    /** The second region of rt_mq_urgent: links the node at the head. */
    method UrgentLinkRegion(t: nat, node: nat) returns (ok: bool)
      requires Valid() && t in s.held && s.held[t].node == node && s.held[t].stage == Filled(true)
      modifies this, next
      ensures Valid() && ok && s == Next(old(s), Link(t))
      ensures receivers == if old(receivers) == [] then [] else old(receivers)[1..]
      ensures s.receivers.woken
              == old(s.receivers.woken) + if old(receivers) == [] then {} else {old(receivers)[0]}
      ensures senders == old(senders) && entry == old(entry) + 1
    {
      hide Linked, Conserved, Ended, Texts, Apart, NoLostWakeup;
      StepInv(s, Link(t));
      NoOverflow(s, t);
      UrgentFacts(next[..], head, freeHead, s, t);
      next[node] := head;
      head := node;
      if tail == NULL {
        tail := node;
      }
      if entry < ENTRY_MAX {
        entry := entry + 1;
      } else {
        assert false;
        return false;
      }
      if receivers != [] {
        receivers := receivers[1..];
      }
      s := Next(s, Link(t));
      ok := true;
    }

    /** The first region of rt_mq_recv, on entry or after being woken. */
    method RecvRegion(t: nat, wait: bool, prio: nat -> nat, flag: Flag) returns (o: Outcome)
      requires Valid() && Running(s, t) && t !in s.senders.woken
      modifies this
      ensures Valid() && s == Next(old(s), Recv(t, wait, Place(old(receivers), prio, prio(t), flag)))
      ensures o == if old(s.queue) != [] then Got(old(s.queue[0])) else if wait then Suspended else Failed
      ensures o == Suspended ==> TookPlace(old(receivers), receivers, t, prio, flag)
      ensures o != Suspended ==> receivers == old(receivers)
      ensures senders == old(senders) && entry == if o.Got? then old(entry) - 1 else old(entry)
      ensures s.receivers.woken == old(s.receivers.woken) - {t}
    {
      hide Linked, Conserved, Ended, Texts, Apart, NoLostWakeup, TookPlace, Place, Insert;
      ghost var step := Recv(t, wait, Place(receivers, prio, prio(t), flag));
      StepInv(s, step);
      if entry == 0 {
        if !wait {
          o := Failed;
        } else {
          SuspendTakesPlace(receivers, prio, t, flag);
          var pos := FindPlace(receivers, prio, prio(t), flag);
          receivers := Insert(receivers, pos, t);
          o := Suspended;
        }
      } else {
        RecvFacts(next[..], head, s, step);
        var msg := head;
        head := next[msg];
        if tail == msg {
          tail := NULL;
        }
        if entry > 0 {
          entry := entry - 1;
        }
        o := Got(msg);
      }
      s := Next(s, step);
    }

    /** Between the regions of a receive: the copy into the caller's buffer. */
    method CopyOut(t: nat, node: nat, size: nat) returns (buffer: Message)
      requires Valid() && Enabled(s, Copy(t)) && s.held[t].node == node
      modifies this`s
      ensures Valid() && s == Next(old(s), Copy(t))
      ensures buffer == old(s.held[t].msg)[..if size > msgSize then msgSize else size]
    {
      hide Linked, Conserved, Ended, Texts, Apart, NoLostWakeup;
      StepInv(s, Copy(t));
      CopyBytes(s, t, size);
      RestagedEnded(next[..], s.held, t);
      buffer := data[node][..if size > msgSize then msgSize else size];
      s := Next(s, Copy(t));
    }

    /** The second region of rt_mq_recv. */
    method ReleaseRegion(t: nat, node: nat)
      requires Valid() && Enabled(s, Release(t)) && s.held[t].node == node
      modifies this, next
      ensures Valid() && s == Next(old(s), Release(t))
      ensures senders == if old(senders) == [] then [] else old(senders)[1..]
      ensures s.senders.woken == old(s.senders.woken) + if old(senders) == [] then {} else {old(senders)[0]}
      ensures receivers == old(receivers) && entry == old(entry) && freeHead == node
    {
      hide Linked, Conserved, Ended, Texts, Apart, NoLostWakeup;
      StepInv(s, Release(t));
      ReleaseFacts(next[..], head, freeHead, s, t);
      next[node] := freeHead;
      freeHead := node;
      if senders != [] {
        senders := senders[1..];
      }
      s := Next(s, Release(t));
    }

    /** A suspended sender's timer runs out: rt_thread_timeout takes it off the list. */
    method TimeOutSender(k: nat)
      requires Valid() && k < |senders|
      modifies this
      ensures Valid() && s == Next(old(s), SendTimeout(k))
      ensures senders == old(senders)[..k] + old(senders)[k + 1..] && receivers == old(receivers)
    {
      hide Inv, Linked, Ended;
      StepInv(s, SendTimeout(k));
      senders := Remove(senders, k);
      s := Next(s, SendTimeout(k));
    }

    method TimeOutReceiver(k: nat)
      requires Valid() && k < |receivers|
      modifies this
      ensures Valid() && s == Next(old(s), RecvTimeout(k))
      ensures receivers == old(receivers)[..k] + old(receivers)[k + 1..] && senders == old(senders)
    {
      hide Inv, Linked, Ended;
      StepInv(s, RecvTimeout(k));
      receivers := Remove(receivers, k);
      s := Next(s, RecvTimeout(k));
    }

    /** rt_mq_control with RT_IPC_CMD_RESET: waiters leave with an error, queued nodes become free. */
    method ResetRegion()
      requires Valid()
      modifies this, next
      ensures Valid() && s == Next(old(s), Reset)
      ensures head == tail == NULL && entry == 0 && receivers == senders == []
    {
      hide Linked, Conserved, Ended, Texts, Apart, NoLostWakeup, Reverse;
      StepInv(s, Reset);
      receivers, senders := [], [];
      ghost var k, moved: seq<nat> := 0, s.free;
      ResetStart(s);
      assert s.queue[0..] == s.queue;
      FirstItem(next[..], head, s.queue);
      while head != NULL
        invariant unchanged(`s) && receivers == senders == [] && next.Length == s.max && 0 <= k <= |s.queue|
        invariant Linked(next[..], head, s.queue[k..]) && Linked(next[..], freeHead, moved) && Ended(next[..], s.held)
        invariant moved == Reverse(s.queue[..k]) + s.free
        invariant head == Item(s.queue[k..], 0)
        invariant tail == if k < |s.queue| then Last(s.queue) else NULL
        decreases |s.queue| - k
      {
        ResetFacts(next[..], head, freeHead, s, k);
        var msg := head;
        head := next[msg];
        if tail == msg {
          tail := NULL;
        }
        next[msg] := freeHead;
        freeHead := msg;
        moved := [s.queue[k]] + moved;
        k := k + 1;
        FirstItem(next[..], head, s.queue[k..]);
      }
      ResetEnd(next[..], s, k);
      entry := 0;
      s := Next(s, Reset);
    }
  }
}
