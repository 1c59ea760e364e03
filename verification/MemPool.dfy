/** The fixed-block memory pool of mempool.c: the free list threaded through the blocks, and the waiting
    protocol of rt_mp_alloc and rt_mp_free.  Addresses count words of sizeof(rt_uint8_t *) = 4 bytes from
    start_address; a block is one header word and its payload. */
module MemPool {
  import opened WaitList
  import opened Wakeup

  const NULL := -1

  datatype State = State(
    total: nat,                // block_total_count
    free: seq<nat>,            // numbers of the free blocks, from block_list on
    taken: set<nat>,           // numbers of the allocated blocks
    line: Line                 // suspend_thread
  )

  datatype Step = Alloc(t: nat, wait: bool) | Free(k: nat) | Timeout(i: nat)

  predicate Enabled(s: State, step: Step) {
    match step
    case Alloc(t, wait) => t !in s.line.waiting
    case Free(k) => k in s.taken
    case Timeout(i) => i < |s.line.waiting|
  }

  /** A thread that has to wait goes to the front of the list: the last to wait is the first served. */
  function Next(s: State, step: Step): State
    requires Enabled(s, step)
  {
    match step
    case Alloc(t, wait) =>
      if s.free != [] then s.(free := s.free[1..], taken := s.taken + {s.free[0]}, line := Back(s.line, t))
      else s.(line := if wait then Join(s.line, 0, t) else Back(s.line, t))
    case Free(k) => s.(free := [k] + s.free, taken := s.taken - {k}, line := Wake(s.line))
    case Timeout(i) => s.(line := Leave(s.line, i))
  }

  /** Free and allocated blocks are the blocks of the pool, each once. */
  ghost predicate Conserved(s: State) {
    && NoDup(s.free)
    && (forall k: nat :: k in s.free || k in s.taken <==> k < s.total)
    && (forall k :: k in s.free ==> k !in s.taken)
    && |s.free| + |s.taken| == s.total
  }

  /** While a thread is suspended, every free block has a woken thread on its way to it. */
  ghost predicate Inv(s: State) {
    Conserved(s) && Orderly(s.line) && Covered(s.line, |s.free|)
  }

  lemma ConservedStep(s: State, step: Step)
    requires Conserved(s) && Enabled(s, step)
    ensures Conserved(Next(s, step))
  {
    match step {
      case Alloc(t, wait) =>
        if s.free != [] {
          FirstOrRest(s.free);
          assert |s.taken + {s.free[0]}| == |s.taken| + 1;
        }
      case Free(k) =>
        var z := [k] + s.free;
        assert forall u :: u in z <==> u == k || u in s.free;
        assert s.taken == (s.taken - {k}) + {k};
      case Timeout(i) =>
    }
  }

  lemma WakeupStep(s: State, step: Step)
    requires Orderly(s.line) && Covered(s.line, |s.free|) && Enabled(s, step)
    ensures var z := Next(s, step); Orderly(z.line) && Covered(z.line, |z.free|)
  {
    hide NoDup;
    match step {
      case Alloc(t, wait) =>
        if s.free != [] { BackCovers(s.line, t, |s.free| - 1); }
        JoinKeeps(s.line, EMPTY, 0, t);
      case Free(k) =>
        WakeKeeps(s.line, EMPTY);
        WakeCovers(s.line, |s.free|);
      case Timeout(i) => LeaveKeeps(s.line, EMPTY, i);
    }
  }

  lemma StepInv(s: State, step: Step)
    requires Inv(s) && Enabled(s, step)
    ensures Inv(Next(s, step))
  {
    hide Conserved, Orderly, Covered;
    ConservedStep(s, step);
    WakeupStep(s, step);
  }

  ghost predicate Fresh(s: State) {
    && s.taken == {} && s.line == EMPTY
    && |s.free| == s.total && forall i :: 0 <= i < s.total ==> s.free[i] == i
  }

  lemma FreshInv(s: State)
    requires Fresh(s)
    ensures Inv(s)
  {
    forall k: nat ensures k in s.free <==> k < s.total {
      if k < s.total { assert s.free[k] == k; }
    }
  }

  ghost predicate Run(states: seq<State>, steps: seq<Step>) {
    && |states| == |steps| + 1
    && Fresh(states[0])
    && forall i :: 0 <= i < |steps| ==> Enabled(states[i], steps[i]) && states[i + 1] == Next(states[i], steps[i])
  }

  /** Over every run: no block is lost or doubled, and once no woken thread is on its way a suspended thread
      means that every block is allocated. */
  lemma {:induction false} RunInv(states: seq<State>, steps: seq<Step>, i: nat)
    requires Run(states, steps) && i < |states|
    ensures Inv(states[i])
    ensures var s := states[i]; s.line.waiting != [] && s.line.woken == {} ==> s.free == [] && |s.taken| == s.total
  {
    hide Next, Enabled, Fresh, Orderly;
    if i == 0 {
      FreshInv(states[0]);
    } else {
      RunInv(states, steps, i - 1);
      StepInv(states[i - 1], steps[i - 1]);
    }
  }

  // ----- who waits -----

  /** The step takes thread t off the list: a freed block wakes t first, or t times out. */
  predicate Leaves(s: State, step: Step, t: nat) {
    match step
    case Free(_) => s.line.waiting != [] && s.line.waiting[0] == t
    case Timeout(i) => i < |s.line.waiting| && s.line.waiting[i] == t
    case Alloc(_, _) => false
  }

  lemma StepWaits(s: State, step: Step, t: nat, u: nat)
    requires Enabled(s, step) && !Leaves(s, step, t) && !Leaves(s, step, u)
    ensures StillWait(s.line.waiting, Next(s, step).line.waiting, t, u)
  {
    hide Precedes;
    match step {
      case Alloc(x, wait) => InsertStays(s.line.waiting, 0, x, t, u);
      case Free(k) => WakeStays(s.line, t, u);
      case Timeout(i) => RemoveStays(s.line.waiting, i, t, u);
    }
  }

  /** Over every run: threads that wait go on waiting, in the same order, until each is woken as the first of the list
      or times out.  With t == u this says that no waiting thread is forgotten. */
  lemma {:induction false} WaitersStay(states: seq<State>, steps: seq<Step>, i: nat, j: nat, t: nat, u: nat)
    requires Run(states, steps) && i <= j < |states|
    requires t in states[i].line.waiting && u in states[i].line.waiting
    requires forall k :: i <= k < j ==> !Leaves(states[k], steps[k], t) && !Leaves(states[k], steps[k], u)
    ensures t in states[j].line.waiting && u in states[j].line.waiting
    ensures Precedes(states[i].line.waiting, t, u) ==> Precedes(states[j].line.waiting, t, u)
  {
    hide Next, Enabled, Fresh, Precedes, Leaves;
    if i < j {
      WaitersStay(states, steps, i, j - 1, t, u);
      assert states[j - 1 + 1] == Next(states[j - 1], steps[j - 1]) && Enabled(states[j - 1], steps[j - 1]);
      StepWaits(states[j - 1], steps[j - 1], t, u);
    }
  }

  /** Over every run: a thread that finds no block and may wait joins the front of the list, and, unless it times out,
      is on it, behind only those that came later, until it is woken. */
  lemma RefusedJoinsFront(states: seq<State>, steps: seq<Step>, i: nat, t: nat)
    requires Run(states, steps) && i < |steps| && steps[i] == Alloc(t, true) && states[i].free == []
    ensures states[i + 1].line.waiting == [t] + states[i].line.waiting && states[i + 1].free == []
    ensures states[i + 1].taken == states[i].taken
  {
    assert states[i + 1] == Next(states[i], steps[i]);
  }

  // ----- the blocks in memory -----

  /** Address of block k when blocks are `stride` words apart. */
  function Addr(k: nat, stride: nat): nat {
    k * stride
  }

  /** Blocks lie one behind the other: distinct ones do not overlap, and all lie within the pool. */
  lemma BlocksApart(k: nat, j: nat, stride: nat, total: nat)
    requires k < j < total
    ensures Addr(k, stride) + stride <= Addr(j, stride) && Addr(j, stride) + stride <= Addr(total, stride)
  {
    MulSteps(k + 1, j, stride);
    MulSteps(j + 1, total, stride);
    assert (k + 1) * stride == k * stride + stride && (j + 1) * stride == j * stride + stride;
  }

  lemma MulSteps(a: nat, b: nat, stride: nat)
    requires a <= b
    ensures a * stride <= b * stride
  {
  }

  function Item(free: seq<nat>, i: nat, stride: nat): int {
    if i < |free| then Addr(free[i], stride) else NULL
  }

  /** The header of each free block holds the address of the next one. */
  ghost predicate Threaded(mem: seq<int>, list: int, free: seq<nat>, stride: nat) {
    && list == Item(free, 0, stride)
    && forall i :: 0 <= i < |free| ==>
       Addr(free[i], stride) < |mem| && mem[Addr(free[i], stride)] == Item(free, i + 1, stride)
  }

  /** The header of each allocated block holds the pool it belongs to. */
  ghost predicate Owned(mem: seq<int>, taken: set<nat>, stride: nat, self: int) {
    forall k :: k in taken ==> Addr(k, stride) < |mem| && mem[Addr(k, stride)] == self
  }

  lemma PopThreaded(mem: seq<int>, list: int, free: seq<nat>, stride: nat, total: nat, v: int)
    requires Threaded(mem, list, free, stride) && NoDup(free) && free != [] && stride > 0
    requires forall k :: k in free ==> k < total
    ensures 0 <= list < |mem| && list == Addr(free[0], stride)
    ensures Threaded(mem[list := v], mem[list], free[1..], stride)
  {
    var rest, z := free[1..], mem[list := v];
    forall i | 0 <= i < |rest| ensures z[Addr(rest[i], stride)] == Item(rest, i + 1, stride) {
      assert rest[i] == free[i + 1] && free[0] in free && free[i + 1] in free;
      AddrDiffer(free[0], free[i + 1], stride, total);
    }
  }

  lemma AddrDiffer(k: nat, j: nat, stride: nat, total: nat)
    requires k != j && k < total && j < total && stride > 0
    ensures Addr(k, stride) != Addr(j, stride)
  {
    if k < j { BlocksApart(k, j, stride, total); } else { BlocksApart(j, k, stride, total); }
  }

  lemma PushThreaded(mem: seq<int>, list: int, free: seq<nat>, stride: nat, total: nat, k: nat)
    requires Threaded(mem, list, free, stride) && stride > 0 && k !in free && k < total && Addr(k, stride) < |mem|
    requires forall j :: j in free ==> j < total
    ensures Threaded(mem[Addr(k, stride) := list], Addr(k, stride), [k] + free, stride)
  {
    var now, z := [k] + free, mem[Addr(k, stride) := list];
    forall i | 0 <= i < |now|
      ensures Addr(now[i], stride) < |z| && z[Addr(now[i], stride)] == Item(now, i + 1, stride)
    {
      if i > 0 {
        assert now[i] == free[i - 1] && free[i - 1] in free;
        AddrDiffer(k, free[i - 1], stride, total);
      }
    }
  }

  /** Writing the header of block k leaves the other allocated blocks' headers. */
  lemma OwnedKept(mem: seq<int>, taken: set<nat>, stride: nat, self: int, total: nat, k: nat, v: int)
    requires Owned(mem, taken, stride, self) && stride > 0 && k < total && Addr(k, stride) < |mem|
    requires forall j :: j in taken ==> j < total
    ensures Owned(mem[Addr(k, stride) := v], taken - {k}, stride, self)
    ensures v == self ==> Owned(mem[Addr(k, stride) := v], taken + {k}, stride, self)
  {
    forall j | j in taken && j != k ensures mem[Addr(k, stride) := v][Addr(j, stride)] == self {
      AddrDiffer(k, j, stride, total);
    }
  }

  datatype Outcome = Got(block: int) | Suspended | Failed

  lemma BlocksKnown(s: State)
    requires Conserved(s)
    ensures NoDup(s.free) && (forall k :: k in s.free ==> k < s.total) && (forall k :: k in s.taken ==> k < s.total)
  {
    hide NoDup;
  }

  class Pool {
    const mem: array<int>
    const self: int                 // the pool's own address
    const stride: nat               // (block_size + sizeof(rt_uint8_t *)) / 4
    var blockList: int
    var freeCount: nat
    var waiters: seq<nat>
    ghost var s: State

    ghost predicate Valid()
      reads this, mem
    {
      && stride > 0 && Addr(s.total, stride) <= mem.Length
      && Threaded(mem[..], blockList, s.free, stride) && Owned(mem[..], s.taken, stride, self)
      && freeCount == |s.free| && waiters == s.line.waiting
      && Inv(s)
    }

    /** rt_mp_init on byte sizes; the pool must hold a block. */
    constructor (size: nat, blockSize: nat, self: int)
      requires size / 4 / ((blockSize + 3) / 4 + 1) >= 1
      ensures Valid() && Fresh(s) && fresh(mem) && mem.Length == size / 4 && this.self == self
      ensures stride == (blockSize + 3) / 4 + 1 && s.total == mem.Length / stride
    {
      var step := (blockSize + 3) / 4 + 1;
      var total := size / 4 / step;
      var words := new int[size / 4];
      Thread(words, step, total);
      mem := words;
      this.self := self;
      stride := step;
      blockList := 0;
      freeCount := total;
      waiters := [];
      s := State(total, seq(total, i => i), {}, EMPTY);
      new;
      FreshInv(s);
      DivRoom(size / 4, step);
    }

    static method Thread(words: array<int>, step: nat, total: nat)
      requires step > 0 && total == words.Length / step && total >= 1
      modifies words
      ensures Threaded(words[..], 0, seq(total, i => i), step)
    {
      DivRoom(words.Length, step);
      for offset := 0 to total
        invariant forall i: nat :: i < offset ==>
                  Addr(i, step) < words.Length && words[Addr(i, step)] == Addr(i + 1, step)
      {
        BlocksFit(offset, step, total);
        forall i: nat | i < offset ensures Addr(i, step) != Addr(offset, step) { AddrDiffer(i, offset, step, total); }
        words[Addr(offset, step)] := Addr(offset + 1, step);
      }
      BlocksFit(total - 1, step, total);
      forall i: nat | i < total - 1 ensures Addr(i, step) != Addr(total - 1, step) {
        AddrDiffer(i, total - 1, step, total);
      }
      words[Addr(total - 1, step)] := NULL;
    }

    /** The region of rt_mp_alloc, on entry or after being woken. */
    method AllocRegion(t: nat, wait: bool) returns (o: Outcome)
      requires Valid() && t !in s.line.waiting
      modifies this, mem
      ensures Valid() && s == old(Next(s, Alloc(t, wait)))
      ensures o == if old(s.free) != [] then Got(Addr(old(s.free[0]), stride) + 1) else if wait then Suspended
              else Failed
      ensures s.free == if o.Got? then old(s.free)[1..] else []
      ensures s.taken == old(s.taken) + if o.Got? then {old(s.free[0])} else {}
      ensures waiters == if o == Suspended then [t] + old(waiters) else old(waiters)
      ensures s.line.woken == old(s.line.woken) - {t}
    {
      hide Threaded, Owned, Orderly, Covered, Insert, Conserved, NoDup, Addr;
      BlocksKnown(s);
      StepInv(s, Alloc(t, wait));
      if freeCount == 0 {
        if !wait {
          o := Failed;
        } else {
          InsertFront(waiters, t);
          waiters := [t] + waiters;
          o := Suspended;
        }
      } else {
        assert s.free[0] in s.free;
        PopThreaded(mem[..], blockList, s.free, stride, s.total, self);
        OwnedKept(mem[..], s.taken, stride, self, s.total, s.free[0], self);
        freeCount := freeCount - 1;
        var block := blockList;
        blockList := mem[block];
        mem[block] := self;
        o := Got(block + 1);
      }
      s := Next(s, Alloc(t, wait));
    }

    /** rt_mp_free of block k: its header leads back to this pool. */
    method Free(block: int, ghost k: nat) returns (mp: int)
      requires Valid() && k in s.taken && block == Addr(k, stride) + 1
      modifies this, mem
      ensures Valid() && mp == self && s == old(Next(s, Step.Free(k)))
      ensures s.free == [k] + old(s.free) && s.taken == old(s.taken) - {k}
      ensures waiters == if old(waiters) == [] then [] else old(waiters)[1..]
      ensures s.line.woken == old(s.line.woken) + if old(waiters) == [] then {} else {old(waiters)[0]}
    {
      hide Threaded, Orderly, Covered;
      StepInv(s, Step.Free(k));
      PushThreaded(mem[..], blockList, s.free, stride, s.total, k);
      OwnedKept(mem[..], s.taken, stride, self, s.total, k, blockList);
      var blockPtr := block - 1;
      mp := mem[blockPtr];
      freeCount := freeCount + 1;
      mem[blockPtr] := blockList;
      blockList := blockPtr;
      if waiters != [] {
        waiters := waiters[1..];
      }
      s := Next(s, Step.Free(k));
    }

    /** A suspended thread's timer runs out. */
    method TimeOut(i: nat)
      requires Valid() && i < |waiters|
      modifies this
      ensures Valid() && s == old(Next(s, Timeout(i)))
      ensures waiters == old(waiters)[..i] + old(waiters)[i + 1..] && s.free == old(s.free) && s.taken == old(s.taken)
    {
      hide Threaded, Owned, Conserved, Orderly, Covered;
      StepInv(s, Timeout(i));
      waiters := Remove(waiters, i);
      s := Next(s, Timeout(i));
    }
  }

  lemma DivRoom(length: nat, stride: nat)
    requires stride > 0
    ensures Addr(length / stride, stride) <= length
  {
  }

  lemma BlocksFit(k: nat, stride: nat, total: nat)
    requires k < total
    ensures Addr(k, stride) + stride <= Addr(total, stride)
  {
    MulSteps(k + 1, total, stride);
    assert (k + 1) * stride == k * stride + stride;
  }
}
