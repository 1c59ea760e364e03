/** The event object of ipc.c.  A send sets bits and serves the suspended threads in list order; the loop of
    rt_event_send is proved to be the immediate path of rt_event_recv, taken by each of them in turn. */
module Event {
  import W = WaitList

  /** The RT_EVENT_FLAG bits of a receive; AND takes precedence over OR. */
  datatype Option = Option(all: bool, any: bool, clear: bool)

  /** A suspended thread with its event_set and event_info. */
  datatype Waiter = Waiter(t: nat, mask: bv32, option: Option)

  /** A resumed thread and the events it received. */
  datatype Wake = Wake(t: nat, received: bv32)

  datatype State = State(events: bv32, waiters: seq<Waiter>)

  datatype Receipt = Got(received: bv32, rest: bv32) | NotYet

  function Meet(x: bv32, y: bv32): bv32 {
    x & y
  }

  function Minus(x: bv32, y: bv32): bv32 {
    Meet(x, !y)
  }

  function Join(x: bv32, y: bv32): bv32 {
    x | y
  }

  predicate Satisfied(events: bv32, mask: bv32, option: Option) {
    if option.all then Meet(events, mask) == mask else Meet(events, mask) != 0
  }

  /** The immediate path of rt_event_recv. */
  function Receive(events: bv32, mask: bv32, option: Option): Receipt {
    if Satisfied(events, mask, option)
    then Got(Meet(events, mask), if option.clear then Minus(events, mask) else events)
    else NotYet
  }

  datatype Drained = Drained(events: bv32, left: seq<Waiter>, woken: seq<Wake>)

  /** Each suspended thread in list order takes the immediate path of rt_event_recv. */
  function Drain(events: bv32, waiters: seq<Waiter>): Drained {
    if waiters == [] then Drained(events, [], [])
    else
      var w := waiters[0];
      match Receive(events, w.mask, w.option)
      case Got(received, rest) =>
        var d := Drain(rest, waiters[1..]);
        d.(woken := [Wake(w.t, received)] + d.woken)
      case NotYet =>
        var d := Drain(events, waiters[1..]);
        d.(left := [w] + d.left)
  }

  // ----- steps and runs -----

  datatype Step =
    | Send(mask: bv32)
    | Recv(t: nat, mask: bv32, option: Option, wait: bool, pos: nat)
    | Timeout(k: nat)
    | Reset

  /** rt_event_recv asserts that one of the flags AND and OR is given. */
  predicate Enabled(s: State, step: Step) {
    match step
    case Send(mask) => true
    case Recv(t, mask, option, wait, pos) => (option.all || option.any) && pos <= |s.waiters|
    case Timeout(k) => k < |s.waiters|
    case Reset => true
  }

  function Next(s: State, step: Step): State
    requires Enabled(s, step)
  {
    match step
    case Send(mask) =>
      if mask == 0 then s
      else var d := Drain(Join(s.events, mask), s.waiters); State(d.events, d.left)
    case Recv(t, mask, option, wait, pos) =>
      if mask == 0 then s
      else
        var r := Receive(s.events, mask, option);
        if r.Got? then s.(events := r.rest)
        else if wait then s.(waiters := Insert(s.waiters, pos, Waiter(t, mask, option)))
        else s
    case Timeout(k) => s.(waiters := s.waiters[..k] + s.waiters[k + 1..])
    case Reset => State(0, [])
  }

  function Insert(list: seq<Waiter>, k: nat, w: Waiter): seq<Waiter>
    requires k <= |list|
  {
    list[..k] + [w] + list[k..]
  }

  /** No suspended thread's condition holds, and each of them asked for something. */
  ghost predicate Settled(s: State) {
    && (forall w :: w in s.waiters ==> !Satisfied(s.events, w.mask, w.option))
    && (forall w :: w in s.waiters ==> w.mask != 0 && (w.option.all || w.option.any))
  }

  predicate Within(x: bv32, y: bv32) {
    Meet(x, y) == x
  }

  lemma WithinSatisfied(x: bv32, y: bv32, mask: bv32, option: Option)
    requires Within(x, y) && Satisfied(x, mask, option)
    ensures Satisfied(y, mask, option)
  {
    BitsSatisfied(x, y, mask);
  }

  lemma BitsSatisfied(x: bv32, y: bv32, mask: bv32)
    requires x & y == x
    ensures x & mask == mask ==> y & mask == mask
    ensures x & mask != 0 ==> y & mask != 0
  {
  }

  lemma BitsWithin(x: bv32, y: bv32)
    ensures (x & !y) & x == x & !y && (x & y) & x == x & y && (x & y) & y == x & y && x & x == x
    ensures x & !(y & x) == x & !y && y & x == x & y
  {
  }

  lemma BitsTrans(x: bv32, y: bv32, z: bv32)
    requires x & y == x && y & z == y
    ensures x & z == x
  {
  }

  lemma ClearWithin(x: bv32, y: bv32)
    ensures Within(Minus(x, y), x)
  {
    hide Meet, Within;
    MeetWithin(x, !y);
  }

  lemma WithinTrans(x: bv32, y: bv32, z: bv32)
    requires Within(x, y) && Within(y, z)
    ensures Within(x, z)
  {
    BitsTrans(x, y, z);
  }

  /** What taking the immediate path leaves, and what it gives. */
  lemma ReceiveFacts(events: bv32, w: Waiter)
    ensures var r := Receive(events, w.mask, w.option);
            && Within(events, events)
            && (r.Got? <==> Satisfied(events, w.mask, w.option))
            && (r.Got? ==> Within(r.rest, events) && Within(r.received, w.mask) && Within(r.received, events))
            && (r.Got? && w.option.all ==> r.received == w.mask)
            && (r.Got? && w.mask != 0 ==> r.received != 0)
  {
    hide Meet, Minus, Within;
    MeetWithin(events, w.mask);
    ClearWithin(events, w.mask);
    WithinSelf(events);
  }

  lemma MeetWithin(x: bv32, y: bv32)
    ensures Within(Meet(x, y), x) && Within(Meet(x, y), y)
  {
    BitsWithin(x, y);
  }

  lemma WithinSelf(x: bv32)
    ensures Within(x, x)
  {
  }

  /** Serving the threads in one pass is enough: what later ones clear satisfies no earlier one. */
  lemma {:induction false} DrainSettles(events: bv32, waiters: seq<Waiter>)
    ensures var d := Drain(events, waiters);
            && Within(d.events, events)
            && (forall w :: w in d.left ==> w in waiters && !Satisfied(d.events, w.mask, w.option))
  {
    if waiters != [] {
      hide Satisfied, Within, Receive;
      var w, r := waiters[0], Receive(events, waiters[0].mask, waiters[0].option);
      var rest := if r.Got? then r.rest else events;
      ReceiveFacts(events, w);
      DrainSettles(rest, waiters[1..]);
      var d := Drain(rest, waiters[1..]);
      WithinTrans(d.events, rest, events);
      if r.NotYet? && Satisfied(d.events, w.mask, w.option) {
        WithinSatisfied(d.events, events, w.mask, w.option);
      }
    }
  }

  lemma RecvSettled(s: State, t: nat, mask: bv32, option: Option, wait: bool, pos: nat)
    requires Settled(s) && Enabled(s, Recv(t, mask, option, wait, pos))
    ensures Settled(Next(s, Recv(t, mask, option, wait, pos)))
  {
    hide Satisfied, Within, Receive;
    var z := Next(s, Recv(t, mask, option, wait, pos));
    ReceiveFacts(s.events, Waiter(t, mask, option));
    forall w | w in s.waiters ensures !Satisfied(z.events, w.mask, w.option) {
      if Satisfied(z.events, w.mask, w.option) {
        WithinSatisfied(z.events, s.events, w.mask, w.option);
      }
    }
  }

  lemma StepSettled(s: State, step: Step)
    requires Settled(s) && Enabled(s, step)
    ensures Settled(Next(s, step))
  {
    hide Satisfied, Within, Receive, Drain, Join;
    match step {
      case Send(mask) => DrainSettles(Join(s.events, mask), s.waiters);
      case Recv(t, mask, option, wait, pos) => RecvSettled(s, t, mask, option, wait, pos);
      case Timeout(k) =>
      case Reset =>
    }
  }

  ghost predicate Run(states: seq<State>, steps: seq<Step>) {
    && |states| == |steps| + 1
    && states[0] == State(0, [])
    && forall i :: 0 <= i < |steps| ==> Enabled(states[i], steps[i]) && states[i + 1] == Next(states[i], steps[i])
  }

  /** Over every run, no thread is left suspended on a condition that the event set satisfies: with OR none of the
      bits it waits for is set, with AND not all of them are. */
  lemma {:induction false} RunSettled(states: seq<State>, steps: seq<Step>, i: nat)
    requires Run(states, steps) && i < |states|
    ensures Settled(states[i])
  {
    if i > 0 {
      hide Settled, Next, Enabled;
      RunSettled(states, steps, i - 1);
      StepSettled(states[i - 1], steps[i - 1]);
    }
  }

  /** Bit by bit: over every run, a thread suspended with OR waits for events none of which is set, one suspended with
      AND lacks some event it waits for. */
  lemma RunLacksBits(states: seq<State>, steps: seq<Step>, i: nat, events: bv32, t: nat, mask: bv32, option: Option)
    requires Run(states, steps) && i < |states| && states[i].events == events
    requires Waiter(t, mask, option) in states[i].waiters
    ensures mask != 0 && (option.all || option.any)
    ensures option.all ==> events & mask != mask
    ensures !option.all ==> events & mask == 0
  {
    hide *;
    RunUnsatisfied(states, steps, i, Waiter(t, mask, option));
    LacksBits(events, mask, option);
  }

  lemma RunUnsatisfied(states: seq<State>, steps: seq<Step>, i: nat, w: Waiter)
    requires Run(states, steps) && i < |states| && w in states[i].waiters
    ensures !Satisfied(states[i].events, w.mask, w.option) && w.mask != 0 && (w.option.all || w.option.any)
  {
    hide Satisfied, Settled, Next, Enabled;
    RunSettled(states, steps, i);
    SettledOne(states[i], w);
  }

  lemma SettledOne(s: State, w: Waiter)
    requires Settled(s) && w in s.waiters
    ensures !Satisfied(s.events, w.mask, w.option) && w.mask != 0 && (w.option.all || w.option.any)
  {
    hide Satisfied;
  }

  lemma LacksBits(events: bv32, mask: bv32, option: Option)
    requires !Satisfied(events, mask, option)
    ensures option.all ==> events & mask != mask
    ensures !option.all ==> events & mask == 0
  {
  }

  /** With AND all the events asked for, with OR any of them. */
  lemma SatisfiedBits(events: bv32, mask: bv32, option: Option)
    ensures option.all ==> (Satisfied(events, mask, option) <==> events & mask == mask)
    ensures !option.all ==> (Satisfied(events, mask, option) <==> events & mask != 0)
  {
  }

  /** What a receive gives and leaves: the events asked for as far as they are set; with CLEAR those it asked for go. */
  lemma ReceiveBits(events: bv32, mask: bv32, option: Option)
    ensures var r := Receive(events, mask, option);
            && (r.Got? <==> Enough(events, mask, option))
            && (r.Got? ==> r.received == Common(events, mask)
                           && r.rest == if option.clear then Less(events, mask) else events)
  {
    hide Satisfied, Enough, Meet, Minus, Common, Less;
    SatisfiedEnough(events, mask, option);
    CommonLess(events, mask);
  }

  lemma SatisfiedEnough(events: bv32, mask: bv32, option: Option)
    ensures Satisfied(events, mask, option) <==> Enough(events, mask, option)
  {
  }

  lemma CommonLess(x: bv32, y: bv32)
    ensures Meet(x, y) == Common(x, y) && Minus(x, y) == Less(x, y)
  {
  }

  predicate Enough(events: bv32, mask: bv32, option: Option) {
    if option.all then events & mask == mask else events & mask != 0
  }

  function Common(events: bv32, mask: bv32): bv32 {
    events & mask
  }

  function Less(events: bv32, mask: bv32): bv32 {
    events & !mask
  }

  /** In list order each waiter finds what those before it left, and is woken with the bits it asked for as far as they
      are set iff that is enough for it: all of them with AND, some with OR.  With CLEAR it takes away what it asked
      for. */
  ghost predicate InTurn(waiters: seq<Waiter>, left: seq<Waiter>, woken: seq<Wake>, events: bv32, rest: bv32)
    decreases |waiters|
  {
    if waiters == [] then left == [] && woken == [] && rest == events
    else
      var w := waiters[0];
      if Enough(events, w.mask, w.option) then
        && woken != [] && woken[0] == Wake(w.t, Common(events, w.mask))
        && InTurn(waiters[1..], left, woken[1..], if w.option.clear then Less(events, w.mask) else events, rest)
      else
        left != [] && left[0] == w && InTurn(waiters[1..], left[1..], woken, events, rest)
  }

  lemma {:induction false} DrainInTurn(events: bv32, waiters: seq<Waiter>)
    ensures var d := Drain(events, waiters); InTurn(waiters, d.left, d.woken, events, d.events)
    decreases |waiters|
  {
    hide Satisfied, Receive, Meet, Minus, Enough, Common, Less;
    if waiters != [] {
      var w := waiters[0];
      var r := Receive(events, w.mask, w.option);
      ReceiveBits(events, w.mask, w.option);
      var rest := if r.Got? then r.rest else events;
      DrainInTurn(rest, waiters[1..]);
      var d := Drain(rest, waiters[1..]);
      if r.Got? {
        assert ([Wake(w.t, r.received)] + d.woken)[1..] == d.woken;
      } else {
        assert ([w] + d.left)[1..] == d.left;
      }
    }
  }

  /** Some waiter asked for what `wake` got. */
  ghost predicate Answered(waiters: seq<Waiter>, wake: Wake, events: bv32) {
    wake.received != 0 && exists w :: w in waiters && Serves(w, wake, events)
  }

  /** The waiters, in order, are dealt out to `left` and `woken`, each to exactly one of them; a woken one got a
      nonempty part of what it asked for, all of it with AND, and nothing that had not happened. */
  ghost predicate DealtOut(waiters: seq<Waiter>, left: seq<Waiter>, woken: seq<Wake>, events: bv32)
    decreases |waiters|
  {
    if waiters == [] then left == [] && woken == []
    else
      || (left != [] && left[0] == waiters[0] && DealtOut(waiters[1..], left[1..], woken, events))
      || (woken != [] && woken[0].received != 0 && Serves(waiters[0], woken[0], events)
          && DealtOut(waiters[1..], left, woken[1..], events))
  }

  /** A thread resumed by a send got a nonempty part of what it asked for, all of it with AND, and nothing
      that had not happened; every other thread stays. */
  lemma {:induction false} DrainAccounts(events: bv32, waiters: seq<Waiter>)
    requires forall w :: w in waiters ==> w.mask != 0
    ensures var d := Drain(events, waiters);
            && |d.left| + |d.woken| == |waiters|
            && DealtOut(waiters, d.left, d.woken, events)
            && (forall k :: 0 <= k < |d.woken| ==> Answered(waiters, d.woken[k], events))
    decreases |waiters|
  {
    hide Satisfied, Within, Receive, Serves, Meet, Minus, Answered;
    if waiters != [] {
      var w, r := waiters[0], Receive(events, waiters[0].mask, waiters[0].option);
      var rest := if r.Got? then r.rest else events;
      ReceiveFacts(events, w);
      DrainAccounts(rest, waiters[1..]);
      var d := Drain(rest, waiters[1..]);
      forall k | 0 <= k < |d.woken| ensures Answered(waiters, d.woken[k], events) {
        AnsweredMore(waiters, d.woken[k], rest, events);
      }
      DealtMore(waiters[1..], d.left, d.woken, rest, events);
      if r.Got? {
        var wake := Wake(w.t, r.received);
        AnsweredFirst(waiters, wake, events);
        assert ([wake] + d.woken)[1..] == d.woken;
      } else {
        assert ([w] + d.left)[1..] == d.left;
      }
    }
  }

  lemma {:induction false} DealtMore(waiters: seq<Waiter>, left: seq<Waiter>, woken: seq<Wake>, rest: bv32,
      events: bv32)
    requires DealtOut(waiters, left, woken, rest) && Within(rest, events)
    ensures DealtOut(waiters, left, woken, events)
    decreases |waiters|
  {
    hide Within;
    if waiters != [] {
      if left != [] && left[0] == waiters[0] && DealtOut(waiters[1..], left[1..], woken, rest) {
        DealtMore(waiters[1..], left[1..], woken, rest, events);
      } else {
        WithinTrans(woken[0].received, rest, events);
        DealtMore(waiters[1..], left, woken[1..], rest, events);
      }
    }
  }

  function WokenIds(woken: seq<Wake>): seq<nat> {
    seq(|woken|, i requires 0 <= i < |woken| => woken[i].t)
  }

  /** So the threads are partitioned: nobody is lost, and no two wakes go to one waiter. */
  lemma {:induction false} DealtThreads(waiters: seq<Waiter>, left: seq<Waiter>, woken: seq<Wake>, events: bv32)
    requires DealtOut(waiters, left, woken, events)
    ensures multiset(Ids(left)) + multiset(WokenIds(woken)) == multiset(Ids(waiters))
    decreases |waiters|
  {
    hide Serves, Ids, WokenIds;
    FirstId(waiters);
    FirstId(left);
    FirstWoken(woken);
    if waiters != [] {
      if left != [] && left[0] == waiters[0] && DealtOut(waiters[1..], left[1..], woken, events) {
        DealtThreads(waiters[1..], left[1..], woken, events);
      } else {
        ServesThread(waiters[0], woken[0], events);
        DealtThreads(waiters[1..], left, woken[1..], events);
      }
    }
  }

  lemma FirstId(waiters: seq<Waiter>)
    ensures multiset(Ids(waiters)) == if waiters == [] then multiset{}
            else multiset{waiters[0].t} + multiset(Ids(waiters[1..]))
  {
    assert waiters != [] ==> Ids(waiters) == [waiters[0].t] + Ids(waiters[1..]);
  }

  lemma FirstWoken(woken: seq<Wake>)
    ensures multiset(WokenIds(woken)) == if woken == [] then multiset{}
            else multiset{woken[0].t} + multiset(WokenIds(woken[1..]))
  {
    assert woken != [] ==> WokenIds(woken) == [woken[0].t] + WokenIds(woken[1..]);
  }

  lemma ServesThread(w: Waiter, wake: Wake, events: bv32)
    requires Serves(w, wake, events)
    ensures w.t == wake.t
  {
  }

  /** Over every run: a send deals the suspended threads out to those it wakes and those it leaves, each in its turn. */
  lemma RunDealt(states: seq<State>, steps: seq<Step>, i: nat, mask: bv32) returns (woken: seq<Wake>)
    requires Run(states, steps) && i < |steps| && steps[i] == Send(mask) && mask != 0
    ensures var s, z := states[i], states[i + 1];
            && DealtOut(s.waiters, z.waiters, woken, s.events | mask)
            && InTurn(s.waiters, z.waiters, woken, s.events | mask, z.events)
            && multiset(Ids(z.waiters)) + multiset(WokenIds(woken)) == multiset(Ids(s.waiters))
  {
    hide Satisfied, Drain, DealtOut, InTurn, Ids, WokenIds;
    RunSettled(states, steps, i);
    var s := states[i];
    var d := Drain(Join(s.events, mask), s.waiters);
    assert states[i + 1] == Next(states[i], steps[i]);
    woken := d.woken;
    DrainAccounts(Join(s.events, mask), s.waiters);
    DrainInTurn(Join(s.events, mask), s.waiters);
    DealtThreads(s.waiters, d.left, d.woken, Join(s.events, mask));
  }

  lemma AnsweredMore(waiters: seq<Waiter>, wake: Wake, rest: bv32, events: bv32)
    requires waiters != [] && Answered(waiters[1..], wake, rest) && Within(rest, events)
    ensures Answered(waiters, wake, events)
  {
    hide Within;
    var u :| u in waiters[1..] && Serves(u, wake, rest);
    WithinTrans(wake.received, rest, events);
    assert u in waiters && Serves(u, wake, events);
  }

  lemma AnsweredFirst(waiters: seq<Waiter>, wake: Wake, events: bv32)
    requires waiters != [] && wake.received != 0 && waiters[0].t == wake.t
    requires Within(wake.received, waiters[0].mask) && Within(wake.received, events)
    requires waiters[0].option.all ==> wake.received == waiters[0].mask
    ensures Answered(waiters, wake, events) && Serves(waiters[0], wake, events)
  {
    hide Within;
    assert waiters[0] in waiters && Serves(waiters[0], wake, events);
  }

  /** `received` is what waiter w asked for, as far as it had happened. */
  predicate Serves(w: Waiter, wake: Wake, events: bv32) {
    && w.t == wake.t && Within(wake.received, w.mask) && Within(wake.received, events)
    && (w.option.all ==> wake.received == w.mask)
  }

  // ----- the object -----

  /** Clearing what an OR receive got is clearing what it asked for. */
  lemma ClearReceived(events: bv32, mask: bv32)
    ensures Minus(events, Meet(mask, events)) == Minus(events, mask)
    ensures Meet(mask, events) == Meet(events, mask)
  {
    BitsWithin(events, mask);
  }

  lemma JoinBits(x: bv32, y: bv32)
    ensures Join(x, y) == x | y
  {
  }

  lemma ReceiveSatisfied(events: bv32, mask: bv32, option: Option)
    ensures Receive(events, mask, option)
            == if (if option.all then Meet(events, mask) == mask else Meet(events, mask) != 0)
               then Got(Meet(events, mask), if option.clear then Minus(events, mask) else events) else NotYet
  {
    hide Meet, Minus;
  }

  /** Waiter w has joined the list at the place its priority or the FIFO flag gives it. */
  ghost predicate Queued(was: seq<Waiter>, now: seq<Waiter>, w: Waiter, prio: nat -> nat, flag: W.Flag) {
    exists k: nat :: k <= |was| && JoinedAt(was, now, w, k) && (flag == W.Fifo ==> k == |was|)
                     && (flag == W.Prio ==> (forall j :: 0 <= j < k ==> prio(was[j].t) <= prio(w.t))
                                            && (k < |was| ==> prio(w.t) < prio(was[k].t)))
  }

  ghost predicate JoinedAt(was: seq<Waiter>, now: seq<Waiter>, w: Waiter, k: nat) {
    k <= |was| && now == was[..k] + [w] + was[k..]
  }

  lemma WaitsInPlace(waiters: seq<Waiter>, w: Waiter, prio: nat -> nat, flag: W.Flag)
    ensures Queued(waiters, Insert(waiters, W.Place(Ids(waiters), prio, prio(w.t), flag), w), w, prio, flag)
  {
    var ids := Ids(waiters);
    var k := W.Place(ids, prio, prio(w.t), flag);
    assert JoinedAt(waiters, Insert(waiters, k, w), w, k);
    assert forall j :: 0 <= j < |waiters| ==> ids[j] == waiters[j].t;
  }

  class EventObject {
    var events: bv32
    var waiters: seq<Waiter>

    ghost function View(): State
      reads this
    {
      State(events, waiters)
    }

    constructor ()
      ensures View() == State(0, []) && Settled(View())
    {
      events, waiters := 0, [];
    }

    /** rt_event_send.  The return for a thread with neither flag is never taken. */
    method Send(bits: bv32) returns (ok: bool, woken: seq<Wake>)
      requires Settled(View())
      modifies this
      ensures Settled(View()) && View() == Next(old(View()), Step.Send(bits))
      ensures ok == (bits != 0)
      ensures woken == if bits == 0 then [] else Drain(Join(old(events), bits), old(waiters)).woken
      ensures bits != 0 ==> InTurn(old(waiters), waiters, woken, old(events) | bits, events)
      ensures bits == 0 ==> waiters == old(waiters) && events == old(events)
    {
      hide InTurn, Within, Meet, Minus, Join, Receive, Drain, Satisfied, Progress;
      woken := [];
      if bits == 0 {
        return false, [];
      }
      StepSettled(View(), Step.Send(bits));
      DrainInTurn(Join(events, bits), waiters);
      JoinBits(events, bits);
      events := Join(events, bits);
      ghost var all := Drain(events, waiters);
      ProgressStarts(events, waiters);
      var n: nat := 0;
      while n < |waiters|
        invariant Progress(all, events, waiters, n, woken) && n <= |waiters|
        invariant forall w :: w in waiters ==> w.option.all || w.option.any
        decreases |waiters| - n
      {
        var thread := waiters[n];
        ProgressWoken(all, events, waiters, n, woken);
        ProgressLeft(all, events, waiters, n, woken);
        var status, eventSet := Serve(thread);
        if status {
          if thread.option.clear {
            events := Minus(events, eventSet);
          }
          woken := woken + [Wake(thread.t, eventSet)];
          waiters := waiters[..n] + waiters[n + 1..];
        } else {
          n := n + 1;
        }
      }
      ProgressEnds(all, events, waiters, n, woken);
      ok := true;
    }

    /** The test rt_event_send makes on each thread; an OR thread's event_set becomes what it received. */
    method Serve(thread: Waiter) returns (status: bool, eventSet: bv32)
      requires thread.option.all || thread.option.any
      ensures var r := Receive(events, thread.mask, thread.option);
              && status == r.Got?
              && (status ==>
                    && eventSet == r.received
                    && r.rest == if thread.option.clear then Minus(events, eventSet) else events)
    {
      hide Meet, Minus;
      ClearReceived(events, thread.mask);
      status, eventSet := false, thread.mask;
      if thread.option.all {
        if Meet(eventSet, events) == eventSet {
          status := true;
        }
      } else if thread.option.any {
        if Meet(eventSet, events) != 0 {
          eventSet := Meet(eventSet, events);
          status := true;
        }
      } else {
        assert false;
      }
    }

    /** The region of rt_event_recv. */
    method Recv(t: nat, bits: bv32, option: Option, wait: bool, prio: nat -> nat, flag: W.Flag) returns (r: Receipt)
      requires Settled(View()) && (option.all || option.any)
      modifies this
      ensures Settled(View())
      ensures View() == Next(old(View()),
              Step.Recv(t, bits, option, wait, W.Place(Ids(old(waiters)), prio, prio(t), flag)))
      ensures r == if bits == 0 then NotYet else Receive(old(events), bits, option)
      ensures bits != 0 ==> (r.Got? <==> Enough(old(events), bits, option))
      ensures r.Got? ==> r.received == Common(old(events), bits) && events == r.rest
      ensures r.Got? ==> events == if option.clear then Less(old(events), bits) else old(events)
      ensures r.NotYet? ==> events == old(events)
      ensures r.NotYet? && bits != 0 && wait ==> Queued(old(waiters), waiters, Waiter(t, bits, option), prio, flag)
      ensures r.Got? || bits == 0 || !wait ==> waiters == old(waiters)
    {
      hide Within, Meet, Minus, Receive, Satisfied, Queued, Settled, Enough, Common, Less;
      ReceiveBits(events, bits, option);
      ReceiveSatisfied(events, bits, option);
      ghost var step := Step.Recv(t, bits, option, wait, W.Place(Ids(waiters), prio, prio(t), flag));
      StepSettled(View(), step);
      r := NotYet;
      if bits == 0 {
        return;
      }
      var status := false;
      if option.all {
        if Meet(events, bits) == bits {
          status := true;
        }
      } else {
        if Meet(events, bits) != 0 {
          status := true;
        }
      }
      if status {
        r := Got(Meet(events, bits), if option.clear then Minus(events, bits) else events);
        if option.clear {
          events := Minus(events, bits);
        }
      } else if wait {
        WaitsInPlace(waiters, Waiter(t, bits, option), prio, flag);
        var pos := W.FindPlace(Ids(waiters), prio, prio(t), flag);
        waiters := Insert(waiters, pos, Waiter(t, bits, option));
      }
    }

    /** A suspended thread's timer runs out. */
    method TimeOut(k: nat)
      requires Settled(View()) && k < |waiters|
      modifies this
      ensures Settled(View()) && View() == Next(old(View()), Timeout(k))
      ensures waiters == old(waiters)[..k] + old(waiters)[k + 1..] && events == old(events)
    {
      StepSettled(View(), Timeout(k));
      waiters := waiters[..k] + waiters[k + 1..];
    }

    /** rt_event_control with RT_IPC_CMD_RESET. */
    method ResetEvent()
      modifies this
      ensures Settled(View()) && View() == Next(old(View()), Reset)
      ensures waiters == [] && events == 0
    {
      waiters := [];
      events := 0;
    }
  }

  /** The loop of rt_event_send has served the threads before place n of what is left. */
  ghost predicate Progress(all: Drained, events: bv32, waiters: seq<Waiter>, n: nat, woken: seq<Wake>) {
    n <= |waiters| && var d := Drain(events, waiters[n..]);
    all == Drained(d.events, waiters[..n] + d.left, woken + d.woken)
  }

  lemma ProgressWoken(all: Drained, events: bv32, waiters: seq<Waiter>, n: nat, woken: seq<Wake>)
    requires Progress(all, events, waiters, n, woken) && n < |waiters|
    ensures var r, left := Receive(events, waiters[n].mask, waiters[n].option), waiters[..n] + waiters[n + 1..];
            && (forall w :: w in left ==> w in waiters)
            && (r.Got? ==> Progress(all, r.rest, left, n, woken + [Wake(waiters[n].t, r.received)]))
  {
    hide Receive;
    var left := waiters[..n] + waiters[n + 1..];
    assert waiters[n..][0] == waiters[n] && waiters[n..][1..] == waiters[n + 1..];
    assert left[n..] == waiters[n + 1..] && left[..n] == waiters[..n];
  }

  lemma ProgressLeft(all: Drained, events: bv32, waiters: seq<Waiter>, n: nat, woken: seq<Wake>)
    requires Progress(all, events, waiters, n, woken) && n < |waiters|
    ensures Receive(events, waiters[n].mask, waiters[n].option).NotYet? ==> Progress(all, events, waiters, n + 1, woken)
  {
    hide Receive;
    assert waiters[n..][0] == waiters[n] && waiters[n..][1..] == waiters[n + 1..];
    assert waiters[..n + 1] == waiters[..n] + [waiters[n]];
  }

  lemma ProgressStarts(events: bv32, waiters: seq<Waiter>)
    ensures Progress(Drain(events, waiters), events, waiters, 0, [])
  {
    assert waiters[0..] == waiters;
  }

  lemma ProgressEnds(all: Drained, events: bv32, waiters: seq<Waiter>, n: nat, woken: seq<Wake>)
    requires Progress(all, events, waiters, n, woken) && n == |waiters|
    ensures all == Drained(events, waiters, woken)
  {
    assert waiters[n..] == [] && waiters[..n] == waiters;
  }

  function Ids(waiters: seq<Waiter>): seq<nat> {
    seq(|waiters|, i requires 0 <= i < |waiters| => waiters[i].t)
  }
}
