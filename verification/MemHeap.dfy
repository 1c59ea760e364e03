/** The memheap allocator of memheap.c: a circular address-ordered block list and a circular free
    list, both threaded through the item headers.  Addresses and sizes count words of
    RT_ALIGN_SIZE = 4 bytes.  An item header takes six words: magic, pool_ptr, next, prev,
    next_free, prev_free.  The pool occupies words 0 .. poolSize; the heap object's own
    `free_header` item follows it. */
module MemHeap {
  import opened Contents
  import opened Order
  import opened Tiling

  const HDR: nat := 6              // RT_MEMHEAP_SIZE
  const MINIALLOC: nat := 3        // RT_MEMHEAP_MINIALLOC
  const FREED := 0x1ea0_1ea0       // RT_MEMHEAP_MAGIC | RT_MEMHEAP_FREED
  const USED := 0x1ea0_1ea1        // RT_MEMHEAP_MAGIC | RT_MEMHEAP_USED
  const NULL := -1
  const SPACE := 0x1_0000_0000       // rt_size_t counts bytes modulo this
  const MAX_REQUEST := 0xFFFF_FFFC  // RT_ALIGN does not wrap up to here
  const MAX_RESIZE := 0xFFFF_FFF0   // nor does the test for growing in place up to here

  const POOL: nat := 1             // header fields
  const NEXT: nat := 2
  const PREV: nat := 3
  const NEXT_FREE: nat := 4
  const PREV_FREE: nat := 5

  /** RT_ALIGN and the lower bound on a request, in words. */
  function Want(bytes: nat): (words: nat)
    ensures Max(bytes, 12) <= 4 * words < Max(bytes, 12) + 4
  {
    var size := (bytes + 3) / 4;
    if size < MINIALLOC then MINIALLOC else size
  }

  ghost function Tag(used: bool): int {
    if used then USED else FREED
  }

  // ----- the block list -----

  /** Address of block i, or of the tail item for i == |bs|. */
  ghost function At(bs: seq<Block>, end: nat, i: nat): nat
    requires i <= |bs|
  {
    if i < |bs| then bs[i].at else end
  }

  /** Predecessor in the circular block list: the first block follows the tail. */
  ghost function Before(bs: seq<Block>, end: nat, i: nat): nat
    requires i <= |bs|
  {
    if i == 0 then end else bs[i - 1].at
  }

  ghost predicate ItemAt(w: seq<int>, bs: seq<Block>, end: nat, self: int, i: nat)
    requires i <= |bs|
  {
    var a := At(bs, end, i);
    && a + HDR <= |w|
    && w[a] == Tag(i == |bs| || bs[i].used)
    && w[a + POOL] == self
    && w[a + NEXT] == (if i == |bs| then 0 else Next(bs, end, i))
    && w[a + PREV] == Before(bs, end, i)
  }

  /** The buffer holds layout `bs` as a circular doubly linked list ending in a used tail item. */
  ghost predicate Chain(w: seq<int>, bs: seq<Block>, end: nat, self: int) {
    && |w| == end + 2 * HDR
    && Tiled(bs, HDR, end)
    && forall i :: 0 <= i <= |bs| ==> ItemAt(w, bs, end, self, i)
  }

  // ----- the free list -----

  /** The free list as a closed walk from the header item back to itself. */
  ghost function Walk(free: seq<nat>, head: nat): seq<nat> {
    [head] + free + [head]
  }

  ghost predicate Linked(w: seq<int>, a: nat, b: nat) {
    a + HDR <= |w| && b + HDR <= |w| && w[a + NEXT_FREE] == b && w[b + PREV_FREE] == a
  }

  /** The free list: items clear of one another, each step of the walk linked both ways. */
  ghost predicate Ring(w: seq<int>, free: seq<nat>, head: nat) {
    && head + HDR <= |w|
    && (forall j, k :: 0 <= j < k < |free| ==> free[j] + HDR <= free[k] || free[k] + HDR <= free[j])
    && (forall j :: 0 <= j < |free| ==> free[j] + HDR <= head)
    && (forall j :: 0 <= j <= |free| ==> Linked(w, Walk(free, head)[j], Walk(free, head)[j + 1]))
  }

  /** Every listed item is a free block. */
  ghost predicate Listed(free: seq<nat>, bs: seq<Block>) {
    forall j :: 0 <= j < |free| ==> Block(free[j], false) in bs
  }

  /** The free list holds exactly the free blocks. */
  ghost predicate Exact(free: seq<nat>, bs: seq<Block>) {
    Listed(free, bs) && forall b :: b in bs && !b.used ==> b.at in free
  }

  ghost function Without(free: seq<nat>, k: nat): seq<nat>
    requires k < |free|
  {
    free[..k] + free[k + 1..]
  }

  /** Writes at the two link words of items a and b relink the walk around item k. */
  lemma UnlinkRing(w: seq<int>, v: seq<int>, free: seq<nat>, head: nat, k: nat)
    requires Ring(w, free, head) && k < |free|
    requires var before, after := Walk(free, head)[k], Walk(free, head)[k + 2];
             SameBut(w, v, after + PREV_FREE, before + NEXT_FREE)
             && v[after + PREV_FREE] == before && v[before + NEXT_FREE] == after
    ensures Ring(v, Without(free, k), head)
  {
    var rest := Walk(Without(free, k), head);
    forall j | 0 <= j < |free| ensures Linked(v, rest[j], rest[j + 1]) {
      UnlinkStep(w, v, free, head, k, j);
    }
  }

  lemma UnlinkStep(w: seq<int>, v: seq<int>, free: seq<nat>, head: nat, k: nat, j: nat)
    requires Ring(w, free, head) && k < |free| && j < |free|
    requires var before, after := Walk(free, head)[k], Walk(free, head)[k + 2];
             SameBut(w, v, after + PREV_FREE, before + NEXT_FREE)
             && v[after + PREV_FREE] == before && v[before + NEXT_FREE] == after
    ensures var rest := Walk(Without(free, k), head);
            Linked(v, rest[j], rest[j + 1])
  {
    var walk, rest := Walk(free, head), Walk(Without(free, k), head);
    var i := if j <= k then j else j + 1;
    assert rest[j] == walk[i];
    assert rest[j + 1] == walk[if j + 1 <= k then j + 1 else j + 2];
    assert Linked(w, walk[i], walk[i + 1]);
  }

  lemma PushRing(w: seq<int>, v: seq<int>, free: seq<nat>, head: nat, x: nat)
    requires Ring(w, free, head) && x + HDR <= head
    requires forall j :: 0 <= j < |free| ==> free[j] + HDR <= x || x + HDR <= free[j]
    requires var first := Walk(free, head)[1];
             && |v| == |w|
             && (forall q :: 0 <= q < |w| ==>
                   q !in {x + NEXT_FREE, x + PREV_FREE, first + PREV_FREE, head + NEXT_FREE} ==> w[q] == v[q])
             && v[x + NEXT_FREE] == first && v[x + PREV_FREE] == head && v[first + PREV_FREE] == x
             && v[head + NEXT_FREE] == x
    ensures Ring(v, [x] + free, head)
  {
    var walk, more := Walk(free, head), Walk([x] + free, head);
    forall j | 0 <= j <= |free| + 1 ensures Linked(v, more[j], more[j + 1]) {
      if j >= 1 {
        assert more[j + 1] == walk[j];
        if j >= 2 {
          assert more[j] == walk[j - 1];
          assert Linked(w, walk[j - 1], walk[j]);
        } else {
          assert more[1] == x;
        }
      }
    }
  }

  /** The ring survives any write that misses its link words. */
  lemma RingSame(w: seq<int>, v: seq<int>, free: seq<nat>, head: nat)
    requires Ring(w, free, head) && |w| == |v|
    requires forall j :: 0 <= j < |free| ==>
             v[free[j] + NEXT_FREE] == w[free[j] + NEXT_FREE] && v[free[j] + PREV_FREE] == w[free[j] + PREV_FREE]
    requires v[head + NEXT_FREE] == w[head + NEXT_FREE] && v[head + PREV_FREE] == w[head + PREV_FREE]
    ensures Ring(v, free, head)
  {
    var walk := Walk(free, head);
    forall j | 0 <= j <= |free| ensures Linked(v, walk[j], walk[j + 1]) {
      assert Linked(w, walk[j], walk[j + 1]);
    }
  }

  // ----- the search -----

  /** The first k listed items are too small. */
  ghost predicate AllSmall(bs: seq<Block>, end: nat, free: seq<nat>, size: nat, k: nat) {
    k <= |free| && forall j, l :: 0 <= j < k && 0 <= l < |bs| && bs[l].at == free[j] ==> Room(bs, HDR, end, l) < size
  }

  /** Block i is the k-th listed item and the first in list order with `size` words. */
  ghost predicate FirstListed(bs: seq<Block>, end: nat, free: seq<nat>, size: nat, k: nat, i: nat) {
    && k < |free| && i < |bs| && bs[i] == Block(free[k], false)
    && Room(bs, HDR, end, i) >= size
    && AllSmall(bs, end, free, size, k)
  }

  /** Some free block has `size` words. */
  ghost predicate Enough(bs: seq<Block>, end: nat, size: nat) {
    exists i :: 0 <= i < |bs| && !bs[i].used && Room(bs, HDR, end, i) >= size
  }

  lemma ListedIndex(free: seq<nat>, bs: seq<Block>, k: nat) returns (i: nat)
    requires Listed(free, bs) && k < |free|
    ensures i < |bs| && bs[i] == Block(free[k], false)
  {
    assert Block(free[k], false) in bs;
    i :| 0 <= i < |bs| && bs[i] == Block(free[k], false);
  }

  lemma SmallOneMore(bs: seq<Block>, end: nat, free: seq<nat>, size: nat, k: nat, i: nat)
    requires Tiled(bs, HDR, end) && AllSmall(bs, end, free, size, k) && k < |free|
    requires i < |bs| && bs[i].at == free[k] && Room(bs, HDR, end, i) < size
    ensures AllSmall(bs, end, free, size, k + 1)
  {
  }

  lemma NothingListedFits(bs: seq<Block>, end: nat, free: seq<nat>, size: nat)
    requires Exact(free, bs) && AllSmall(bs, end, free, size, |free|)
    ensures !Enough(bs, end, size)
  {
    forall i | 0 <= i < |bs| && !bs[i].used ensures Room(bs, HDR, end, i) < size {
      assert bs[i] in bs && bs[i].at in free;
    }
  }

  /** Outcome of rt_memheap_alloc: the first listed item that is large enough is carved, the rest of it
      goes to the front of the free list. */
  ghost predicate Allocated(bs: seq<Block>, ds: seq<Block>, end: nat, free: seq<nat>, now: seq<nat>, size: nat,
      r: int) {
    if r == NULL then
      ds == bs && now == free && !CanAllocate(bs, end, size)
    else
      && CanAllocate(bs, end, size)
      && exists k: nat, i: nat :: Carved(bs, ds, end, free, now, size, r, k, i)
  }

  ghost predicate Carved(bs: seq<Block>, ds: seq<Block>, end: nat, free: seq<nat>, now: seq<nat>, size: nat, r: int,
      k: nat, i: nat) {
    && FirstListed(bs, end, free, size, k, i)
    && r == bs[i].at + HDR
    && ds == Carve(bs, HDR, end, i, size, MINIALLOC)
    && now == (if Room(bs, HDR, end, i) >= size + HDR + MINIALLOC then [bs[i].at + HDR + size] else [])
              + Without(free, k)
  }

  /** A request is served iff some free block is large enough and it asks for less than all that is available. */
  ghost predicate CanAllocate(bs: seq<Block>, end: nat, size: nat) {
    size < Total(bs, end, false, HDR) && Enough(bs, end, size)
  }

  /** The second condition bites in one case only: the request asks for every available word and one
      block holds them all. */
  lemma RefusedThoughLargeEnough(bs: seq<Block>, end: nat, size: nat)
    requires Tiled(bs, HDR, end) && Enough(bs, end, size)
    ensures !CanAllocate(bs, end, size) <==> size == Total(bs, end, false, HDR)
  {
    var i :| 0 <= i < |bs| && !bs[i].used && Room(bs, HDR, end, i) >= size;
    TotalBounds(bs, HDR, end, i);
  }

  /** So a fresh heap cannot hand out its whole payload although it is free. */
  lemma FreshHeapRefusesItsWholeSize(bytes: nat)
    requires Want(bytes) * 4 == bytes
    ensures Allocated([Block(0, false)], [Block(0, false)], Want(bytes) + HDR, [0], [0], Want(bytes), NULL)
    ensures Room([Block(0, false)], HDR, Want(bytes) + HDR, 0) == Want(bytes)
  {
    TotalOne(Block(0, false), Want(bytes) + HDR, false, HDR);
  }

  /** A successful allocation adds one live block of at least the wanted size at a fresh address. */
  lemma AllocatedLive(bs: seq<Block>, ds: seq<Block>, end: nat, free: seq<nat>, now: seq<nat>, size: nat, r: int)
    requires Tiled(bs, HDR, end) && Coalesced(bs) && Allocated(bs, ds, end, free, now, size, r) && r != NULL
    ensures Tiled(ds, HDR, end) && Coalesced(ds)
    ensures r !in Live(bs, HDR, end) && r in Live(ds, HDR, end)
    ensures size <= Live(ds, HDR, end)[r] < size + HDR + MINIALLOC
    ensures Live(ds, HDR, end) == Live(bs, HDR, end)[r := Live(ds, HDR, end)[r]]
  {
    var k: nat, i: nat :| Carved(bs, ds, end, free, now, size, r, k, i);
    hide Tiled, Coalesced, Live, Carve;
    CarveTiled(bs, HDR, end, i, size, MINIALLOC);
    CarveLive(bs, HDR, end, i, size, MINIALLOC);
  }

  /** Item k leaves the free list: every other free block is still listed. */
  lemma WithoutExact(bs: seq<Block>, end: nat, free: seq<nat>, k: nat, i: nat)
    requires Tiled(bs, HDR, end) && Listed(free, bs) && k < |free| && i < |bs| && bs[i].at == free[k]
    requires forall j, l :: 0 <= j < l < |free| ==> free[j] != free[l]
    ensures bs[i].at !in Without(free, k) && Listed(Without(free, k), bs)
    ensures forall b :: b in bs && !b.used && b.at != free[k] && b.at in free ==> b.at in Without(free, k)
  {
    var rest := Without(free, k);
    forall j | 0 <= j < |rest| ensures Block(rest[j], false) in bs && rest[j] != free[k] {
      assert rest[j] == free[if j < k then j else j + 1];
    }
    forall b | b in bs && !b.used && b.at != free[k] && b.at in free ensures b.at in rest {
      var j :| 0 <= j < |free| && free[j] == b.at;
      assert rest[if j < k then j else j - 1] == b.at;
    }
  }

  lemma CarveIndex(bs: seq<Block>, end: nat, i: nat, size: nat, k: nat)
    requires i < |bs| && (k < |Carve(bs, HDR, end, i, size, MINIALLOC)| || k < |bs|
             || (k == |bs| && Room(bs, HDR, end, i) >= size + HDR + MINIALLOC))
    ensures var ds, split := Carve(bs, HDR, end, i, size, MINIALLOC), Room(bs, HDR, end, i) >= size + HDR + MINIALLOC;
            && |ds| == (if split then |bs| + 1 else |bs|) && k < |ds|
            && ds[k] == if k == i then Block(bs[i].at, true)
                        else if split && k == i + 1 then Block(bs[i].at + HDR + size, false)
                        else bs[if split && k > i then k - 1 else k]
  {
  }

  lemma AddressesDiffer(bs: seq<Block>, end: nat, i: nat, k: nat)
    requires Tiled(bs, HDR, end) && i < |bs| && k < |bs| && i != k
    ensures bs[i].at != bs[k].at
  {
  }

  /** The free blocks after an allocation: those before, less block i, plus what was split off. */
  lemma CarveFree(bs: seq<Block>, end: nat, i: nat, size: nat, at: nat)
    requires Tiled(bs, HDR, end) && i < |bs| && !bs[i].used && Room(bs, HDR, end, i) >= size
    ensures var ds, cut := Carve(bs, HDR, end, i, size, MINIALLOC), bs[i].at + HDR + size;
            Block(at, false) in ds <==>
              || (Block(at, false) in bs && at != bs[i].at)
              || (at == cut && Room(bs, HDR, end, i) >= size + HDR + MINIALLOC)
  {
    hide Carve, Room, Tiled;
    var ds, b := Carve(bs, HDR, end, i, size, MINIALLOC), Block(at, false);
    var split := Room(bs, HDR, end, i) >= size + HDR + MINIALLOC;
    CarveIndex(bs, end, i, size, i);
    if split { CarveIndex(bs, end, i, size, i + 1); }
    if b in bs && at != bs[i].at {
      var l: nat :| l < |bs| && bs[l] == b;
      CarveIndex(bs, end, i, size, if split && l > i then l + 1 else l);
    }
    if b in ds {
      var l: nat :| l < |ds| && ds[l] == b;
      CarveIndex(bs, end, i, size, l);
      if l != i && !(split && l == i + 1) { AddressesDiffer(bs, end, i, if split && l > i then l - 1 else l); }
    }
  }

  /** Marking block i used completes an allocation whose item has left the list. */
  lemma CarveExact(bs: seq<Block>, end: nat, i: nat, size: nat, rest: seq<nat>)
    requires Tiled(bs, HDR, end) && i < |bs| && !bs[i].used && Room(bs, HDR, end, i) >= size
    requires Listed(rest, bs) && bs[i].at !in rest
    requires forall b :: b in bs && !b.used && b.at != bs[i].at ==> b.at in rest
    ensures var split := Room(bs, HDR, end, i) >= size + HDR + MINIALLOC;
            Exact((if split then [bs[i].at + HDR + size] else []) + rest, Carve(bs, HDR, end, i, size, MINIALLOC))
  {
    hide Tiled, Carve, Room;
    var ds := Carve(bs, HDR, end, i, size, MINIALLOC);
    var more := if Room(bs, HDR, end, i) >= size + HDR + MINIALLOC then [bs[i].at + HDR + size] else [];
    var now := more + rest;
    forall j | 0 <= j < |now| ensures Block(now[j], false) in ds {
      CarveFree(bs, end, i, size, now[j]);
      if j >= |more| { assert now[j] == rest[j - |more|] && Block(rest[j - |more|], false) in bs; }
    }
    forall b | b in ds && !b.used ensures b.at in now {
      CarveFree(bs, end, i, size, b.at);
      assert b == Block(b.at, false);
    }
  }

  // ----- block list updates, as facts about buffers -----

  /** Items i and k of the chain do not overlap. */
  lemma ItemsApart(w: seq<int>, bs: seq<Block>, end: nat, self: int, i: nat, k: nat)
    requires Chain(w, bs, end, self) && i <= |bs| && k <= |bs| && i != k
    ensures At(bs, end, i) + HDR <= At(bs, end, k) || At(bs, end, k) + HDR <= At(bs, end, i)
    ensures ItemAt(w, bs, end, self, i) && ItemAt(w, bs, end, self, k)
  {
  }

  /** Neighbouring items in address order. */
  lemma ItemsOrdered(w: seq<int>, bs: seq<Block>, end: nat, self: int, i: nat)
    requires Chain(w, bs, end, self) && i < |bs|
    ensures At(bs, end, i) + HDR <= At(bs, end, i + 1) == Next(bs, end, i) <= end
    ensures |w| == end + 2 * HDR && ItemAt(w, bs, end, self, i) && ItemAt(w, bs, end, self, i + 1)
  {
  }

  lemma FlagChain(w: seq<int>, v: seq<int>, bs: seq<Block>, end: nat, self: int, i: nat, used: bool)
    requires Chain(w, bs, end, self) && i < |bs|
    requires SameBut(w, v, bs[i].at, bs[i].at) && v[bs[i].at] == Tag(used)
    ensures Chain(v, bs[i := Block(bs[i].at, used)], end, self)
    ensures Unchanged(w, v, bs, HDR, end)
  {
    FlagUnchanged(w, v, bs, end, self, i);
    hide ItemAt, Unchanged, SameBut;
    var ds := bs[i := Block(bs[i].at, used)];
    forall k | 0 <= k <= |ds| ensures ItemAt(v, ds, end, self, k) {
      FlagItem(w, v, bs, end, self, i, used, k);
    }
  }

  lemma FlagItem(w: seq<int>, v: seq<int>, bs: seq<Block>, end: nat, self: int, i: nat, used: bool, k: nat)
    requires Chain(w, bs, end, self) && i < |bs| && k <= |bs|
    requires SameBut(w, v, bs[i].at, bs[i].at) && v[bs[i].at] == Tag(used)
    ensures ItemAt(v, bs[i := Block(bs[i].at, used)], end, self, k) && |v| == |w|
  {
    assert ItemAt(w, bs, end, self, k);
    if k != i { ItemsApart(w, bs, end, self, i, k); }
  }

  lemma FlagUnchanged(w: seq<int>, v: seq<int>, bs: seq<Block>, end: nat, self: int, i: nat)
    requires Chain(w, bs, end, self) && i < |bs| && SameBut(w, v, bs[i].at, bs[i].at)
    ensures Unchanged(w, v, bs, HDR, end) && |w| == |v|
  {
    forall k, q | 0 <= k < |bs| && bs[k].used && bs[k].at + HDR <= q < Next(bs, end, k) && q < |w|
      ensures w[q] == v[q]
    {
      if k != i { ItemsApart(w, bs, end, self, i, k); }
    }
  }

  /** Block i takes over block i + 1. */
  ghost predicate Absorbs(w: seq<int>, v: seq<int>, bs: seq<Block>, end: nat, i: nat)
    requires i + 1 < |bs|
  {
    var a, stop := bs[i].at, Next(bs, end, i + 1);
    && SameBut(w, v, a + NEXT, stop + PREV) && a + HDR <= |w| && stop + HDR <= |w|
    && v[a + NEXT] == stop && v[stop + PREV] == a
  }

  lemma AbsorbItem(w: seq<int>, v: seq<int>, bs: seq<Block>, end: nat, self: int, i: nat, j: nat)
    requires Chain(w, bs, end, self) && i + 1 < |bs| && Absorbs(w, v, bs, end, i) && j <= |bs| && j != i + 1
    ensures var a := At(bs, end, j);
            && a + HDR <= |v| && v[a] == Tag(j == |bs| || bs[j].used) && v[a + POOL] == self
            && v[a + NEXT] == (if j == |bs| then 0 else if j == i then Next(bs, end, i + 1) else Next(bs, end, j))
            && v[a + PREV] == (if j == i + 2 then bs[i].at else Before(bs, end, j))
  {
    assert ItemAt(w, bs, end, self, j);
    if j != i { ItemsApart(w, bs, end, self, i, j); }
    if j != i + 2 { ItemsApart(w, bs, end, self, i + 2, j); }
  }

  lemma AbsorbedAt(v: seq<int>, bs: seq<Block>, end: nat, self: int, i: nat, k: nat, j: nat)
    requires i + 1 < |bs| && k + 1 <= |bs| && j == if k > i then k + 1 else k
    requires var a := At(bs, end, j);
             && a + HDR <= |v| && v[a] == Tag(j == |bs| || bs[j].used) && v[a + POOL] == self
             && v[a + NEXT] == (if j == |bs| then 0 else if j == i then Next(bs, end, i + 1) else Next(bs, end, j))
             && v[a + PREV] == (if j == i + 2 then bs[i].at else Before(bs, end, j))
    ensures ItemAt(v, Replace(bs, i, i + 2, [bs[i]]), end, self, k)
  {
    hide Replace;
    AbsorbIndex(bs, i, if k > 0 then k - 1 else k);
    if k + 1 < |bs| { AbsorbIndex(bs, i, k); }
    if k + 2 < |bs| { AbsorbIndex(bs, i, k + 1); }
  }

  lemma AbsorbChain(w: seq<int>, v: seq<int>, bs: seq<Block>, end: nat, self: int, i: nat)
    requires Chain(w, bs, end, self) && i + 1 < |bs| && Absorbs(w, v, bs, end, i)
    ensures Chain(v, Replace(bs, i, i + 2, [bs[i]]), end, self) && Tiled(Replace(bs, i, i + 2, [bs[i]]), HDR, end)
  {
    var ds := Replace(bs, i, i + 2, [bs[i]]);
    ReplaceTiled(bs, HDR, end, i, i + 2, [bs[i]]);
    forall k | 0 <= k <= |ds| ensures ItemAt(v, ds, end, self, k) {
      var j := if k > i then k + 1 else k;
      AbsorbItem(w, v, bs, end, self, i, j);
      AbsorbedAt(v, bs, end, self, i, k, j);
    }
  }

  /** The absorbing writes hit no payload of a used block ... */
  lemma AbsorbUnchanged(w: seq<int>, v: seq<int>, bs: seq<Block>, end: nat, self: int, i: nat)
    requires Chain(w, bs, end, self) && i + 1 < |bs| && Absorbs(w, v, bs, end, i)
    ensures Unchanged(w, v, bs, HDR, end)
  {
    forall k, q | 0 <= k < |bs| && bs[k].used && bs[k].at + HDR <= q < Next(bs, end, k) && q < |w|
      ensures w[q] == v[q]
    {
      if k != i { ItemsApart(w, bs, end, self, i, k); }
      if k != i + 2 { ItemsApart(w, bs, end, self, i + 2, k); }
    }
  }

  lemma AbsorbLinks(w: seq<int>, v: seq<int>, bs: seq<Block>, end: nat, self: int, i: nat, k: nat)
    requires Chain(w, bs, end, self) && i + 1 < |bs| && Absorbs(w, v, bs, end, i) && k < |bs|
    ensures |w| == |v| && bs[k].at + HDR <= |w|
    ensures v[bs[k].at + NEXT_FREE] == w[bs[k].at + NEXT_FREE] && v[bs[k].at + PREV_FREE] == w[bs[k].at + PREV_FREE]
  {
    if k != i { ItemsApart(w, bs, end, self, i, k); }
    if k != i + 2 { ItemsApart(w, bs, end, self, i + 2, k); }
  }

  lemma AbsorbHead(w: seq<int>, v: seq<int>, bs: seq<Block>, end: nat, self: int, i: nat)
    requires Chain(w, bs, end, self) && i + 1 < |bs| && Absorbs(w, v, bs, end, i)
    ensures |w| == |v| == end + 2 * HDR
    ensures v[end + HDR + NEXT_FREE] == w[end + HDR + NEXT_FREE] && v[end + HDR + PREV_FREE] == w[end + HDR + PREV_FREE]
  {
  }

  /** ... and no link word of a listed item. */
  lemma AbsorbRing(w: seq<int>, v: seq<int>, bs: seq<Block>, end: nat, self: int, i: nat, free: seq<nat>)
    requires Chain(w, bs, end, self) && i + 1 < |bs| && Absorbs(w, v, bs, end, i)
    requires Ring(w, free, end + HDR) && Listed(free, bs)
    ensures Ring(v, free, end + HDR)
  {
    hide Chain, Listed, Absorbs;
    AbsorbHead(w, v, bs, end, self, i);
    forall j | 0 <= j < |free|
      ensures v[free[j] + NEXT_FREE] == w[free[j] + NEXT_FREE] && v[free[j] + PREV_FREE] == w[free[j] + PREV_FREE]
    {
      var k := ListedIndex(free, bs, j);
      AbsorbLinks(w, v, bs, end, self, i, k);
    }
    RingSame(w, v, free, end + HDR);
  }

  /** A free item written behind the first `size` words of block i. */
  ghost predicate Cuts(w: seq<int>, v: seq<int>, bs: seq<Block>, end: nat, self: int, i: nat, size: nat)
    requires i < |bs|
  {
    var a, cut, stop := bs[i].at, bs[i].at + HDR + size, Next(bs, end, i);
    && |w| == |v| && cut + HDR <= stop && stop + HDR <= |v|
    && (forall q :: 0 <= q < |w| && q != a + NEXT && !(cut <= q <= cut + PREV) && q != stop + PREV ==> w[q] == v[q])
    && v[cut] == FREED && v[cut + POOL] == self && v[cut + NEXT] == stop && v[cut + PREV] == a
    && v[a + NEXT] == cut && v[stop + PREV] == cut
  }

  lemma CutItem(w: seq<int>, v: seq<int>, bs: seq<Block>, end: nat, self: int, i: nat, size: nat, j: nat)
    requires Chain(w, bs, end, self) && i < |bs| && Cuts(w, v, bs, end, self, i, size) && j <= |bs|
    ensures var a := At(bs, end, j);
            && a + HDR <= |v| && v[a] == Tag(j == |bs| || bs[j].used) && v[a + POOL] == self
            && v[a + NEXT] == (if j == |bs| then 0 else if j == i then bs[i].at + HDR + size else Next(bs, end, j))
            && v[a + PREV] == (if j == i + 1 then bs[i].at + HDR + size else Before(bs, end, j))
  {
    assert ItemAt(w, bs, end, self, j);
    if j != i { ItemsApart(w, bs, end, self, i, j); }
    if j != i + 1 { ItemsApart(w, bs, end, self, i + 1, j); }
  }

  lemma CutAt(v: seq<int>, bs: seq<Block>, end: nat, self: int, i: nat, size: nat, k: nat, j: nat)
    requires i < |bs| && k <= |bs| + 1 && k != i + 1 && j == if k > i then k - 1 else k
    requires var a := At(bs, end, j);
             && a + HDR <= |v| && v[a] == Tag(j == |bs| || bs[j].used) && v[a + POOL] == self
             && v[a + NEXT] == (if j == |bs| then 0 else if j == i then bs[i].at + HDR + size else Next(bs, end, j))
             && v[a + PREV] == (if j == i + 1 then bs[i].at + HDR + size else Before(bs, end, j))
    ensures ItemAt(v, CutLayout(bs, HDR, i, size), end, self, k)
  {
    hide CutLayout;
    CutIndex(bs, HDR, i, size, if k > 0 then k - 1 else k);
    if k <= |bs| { CutIndex(bs, HDR, i, size, k); }
    if k < |bs| { CutIndex(bs, HDR, i, size, k + 1); }
  }

  lemma CutChain(w: seq<int>, v: seq<int>, bs: seq<Block>, end: nat, self: int, i: nat, size: nat)
    requires Chain(w, bs, end, self) && i < |bs| && Cuts(w, v, bs, end, self, i, size)
    ensures Chain(v, CutLayout(bs, HDR, i, size), end, self) && Tiled(CutLayout(bs, HDR, i, size), HDR, end)
  {
    hide ItemAt, Tiled, CutLayout;
    var ds := CutLayout(bs, HDR, i, size);
    CutTiled(bs, end, i, size);
    forall k | 0 <= k <= |ds| ensures ItemAt(v, ds, end, self, k) {
      if k == i + 1 {
        NewItem(w, v, bs, end, self, i, size);
      } else {
        var j := if k > i then k - 1 else k;
        CutItem(w, v, bs, end, self, i, size, j);
        CutAt(v, bs, end, self, i, size, k, j);
      }
    }
  }

  lemma CutTiled(bs: seq<Block>, end: nat, i: nat, size: nat)
    requires Tiled(bs, HDR, end) && i < |bs| && size + HDR <= Room(bs, HDR, end, i)
    ensures var ds := CutLayout(bs, HDR, i, size); |ds| == |bs| + 1 && Tiled(ds, HDR, end)
  {
    hide Tiled;
    ReplaceTiled(bs, HDR, end, i, i + 1, [bs[i], Block(bs[i].at + HDR + size, false)]);
  }

  lemma NewItem(w: seq<int>, v: seq<int>, bs: seq<Block>, end: nat, self: int, i: nat, size: nat)
    requires Chain(w, bs, end, self) && i < |bs| && Cuts(w, v, bs, end, self, i, size)
    ensures var ds := CutLayout(bs, HDR, i, size); i + 1 <= |ds| && ItemAt(v, ds, end, self, i + 1)
  {
  }

  lemma CutUnchanged(w: seq<int>, v: seq<int>, bs: seq<Block>, end: nat, self: int, i: nat, size: nat)
    requires Chain(w, bs, end, self) && i < |bs| && Cuts(w, v, bs, end, self, i, size)
    ensures Unchanged(w, v, CutLayout(bs, HDR, i, size), HDR, end)
  {
    var ds := CutLayout(bs, HDR, i, size);
    forall k, q | 0 <= k < |ds| && ds[k].used && ds[k].at + HDR <= q < Next(ds, end, k) && q < |w|
      ensures w[q] == v[q]
    {
      if k != i {
        var j := if k > i then k - 1 else k;
        assert ds[k] == bs[j] && Next(ds, end, k) == Next(bs, end, j);
        ItemsApart(w, bs, end, self, i, j);
        if j != i + 1 { ItemsApart(w, bs, end, self, i + 1, j); }
      }
    }
  }

  lemma CutLinks(w: seq<int>, v: seq<int>, bs: seq<Block>, end: nat, self: int, i: nat, size: nat, k: nat)
    requires Chain(w, bs, end, self) && i < |bs| && Cuts(w, v, bs, end, self, i, size) && k < |bs|
    ensures |w| == |v| && bs[k].at + HDR <= |w|
    ensures v[bs[k].at + NEXT_FREE] == w[bs[k].at + NEXT_FREE] && v[bs[k].at + PREV_FREE] == w[bs[k].at + PREV_FREE]
  {
    if k != i { ItemsApart(w, bs, end, self, i, k); }
    if k != i + 1 { ItemsApart(w, bs, end, self, i + 1, k); }
  }

  lemma CutHead(w: seq<int>, v: seq<int>, bs: seq<Block>, end: nat, self: int, i: nat, size: nat)
    requires Chain(w, bs, end, self) && i < |bs| && Cuts(w, v, bs, end, self, i, size)
    ensures |w| == |v| == end + 2 * HDR
    ensures v[end + HDR + NEXT_FREE] == w[end + HDR + NEXT_FREE] && v[end + HDR + PREV_FREE] == w[end + HDR + PREV_FREE]
  {
  }

  lemma CutRing(w: seq<int>, v: seq<int>, bs: seq<Block>, end: nat, self: int, i: nat, size: nat, free: seq<nat>)
    requires Chain(w, bs, end, self) && i < |bs| && Cuts(w, v, bs, end, self, i, size)
    requires Ring(w, free, end + HDR) && Listed(free, bs)
    ensures Ring(v, free, end + HDR)
  {
    hide Chain, Listed, Cuts;
    CutHead(w, v, bs, end, self, i, size);
    forall j | 0 <= j < |free|
      ensures v[free[j] + NEXT_FREE] == w[free[j] + NEXT_FREE] && v[free[j] + PREV_FREE] == w[free[j] + PREV_FREE]
    {
      var k := ListedIndex(free, bs, j);
      CutLinks(w, v, bs, end, self, i, size, k);
    }
    RingSame(w, v, free, end + HDR);
  }

  /** Word q is a link word of a free block. */
  ghost predicate LinkWord(bs: seq<Block>, q: int) {
    exists j :: 0 <= j < |bs| && !bs[j].used && (q == bs[j].at + NEXT_FREE || q == bs[j].at + PREV_FREE)
  }

  /** Writes that hit only link words of free blocks and of the list header. */
  ghost predicate LinkWrites(w: seq<int>, v: seq<int>, bs: seq<Block>, end: nat) {
    |w| == |v| && forall q :: 0 <= q < |w| && q < end + HDR && !LinkWord(bs, q) ==> w[q] == v[q]
  }

  lemma LinkChain(w: seq<int>, v: seq<int>, bs: seq<Block>, end: nat, self: int)
    requires Chain(w, bs, end, self) && LinkWrites(w, v, bs, end)
    ensures Chain(v, bs, end, self)
  {
    forall k | 0 <= k <= |bs| ensures ItemAt(v, bs, end, self, k) {
      LinkItem(w, v, bs, end, self, k);
    }
  }

  lemma LinkItem(w: seq<int>, v: seq<int>, bs: seq<Block>, end: nat, self: int, k: nat)
    requires Chain(w, bs, end, self) && LinkWrites(w, v, bs, end) && k <= |bs|
    ensures ItemAt(v, bs, end, self, k)
  {
    assert ItemAt(w, bs, end, self, k);
    var a := At(bs, end, k);
    forall q | a <= q <= a + PREV ensures !LinkWord(bs, q) {
    }
    assert !LinkWord(bs, a) && !LinkWord(bs, a + POOL) && !LinkWord(bs, a + NEXT) && !LinkWord(bs, a + PREV);
  }

  lemma LinkUnchanged(w: seq<int>, v: seq<int>, bs: seq<Block>, end: nat, self: int)
    requires Chain(w, bs, end, self) && LinkWrites(w, v, bs, end)
    ensures Unchanged(w, v, bs, HDR, end)
  {
    forall k, q | 0 <= k < |bs| && bs[k].used && bs[k].at + HDR <= q < Next(bs, end, k) && q < |w|
      ensures w[q] == v[q]
    {
      assert !LinkWord(bs, q);
    }
  }

  /** The neighbours of item k in the walk are the header item or other free blocks. */
  lemma WalkNodes(free: seq<nat>, head: nat, k: nat, bs: seq<Block>, end: nat)
    requires k < |free| && head == end + HDR && Listed(Without(free, k), bs)
    ensures var a, b := Walk(free, head)[k], Walk(free, head)[k + 2];
            && (a == head || LinkWord(bs, a + NEXT_FREE)) && (b == head || LinkWord(bs, b + PREV_FREE))
  {
    var rest := Without(free, k);
    if k > 0 {
      assert rest[k - 1] == free[k - 1] && Block(rest[k - 1], false) in bs;
    }
    if k + 1 < |free| {
      assert rest[k] == free[k + 1] && Block(rest[k], false) in bs;
    }
  }

  lemma PushNodes(free: seq<nat>, head: nat, i: nat, bs: seq<Block>, end: nat)
    requires Tiled(bs, HDR, end) && head == end + HDR && Listed(free, bs)
    requires i < |bs| && !bs[i].used && bs[i].at !in free
    ensures var x, first := bs[i].at, Walk(free, head)[1];
            && x + HDR <= head && LinkWord(bs, x + NEXT_FREE) && LinkWord(bs, x + PREV_FREE)
            && (first == head || LinkWord(bs, first + PREV_FREE)) && first != x
            && (forall j :: 0 <= j < |free| ==> free[j] + HDR <= x || x + HDR <= free[j])
            && Listed([x] + free, bs)
  {
    var more := [bs[i].at] + free;
    if |free| > 0 {
      assert Block(free[0], false) in bs;
    }
    forall j | 0 <= j < |free| ensures free[j] + HDR <= bs[i].at || bs[i].at + HDR <= free[j] {
      var k :| 0 <= k < |bs| && bs[k] == Block(free[j], false);
    }
    forall j | 0 <= j < |more| ensures Block(more[j], false) in bs {
      if j > 0 { assert more[j] == free[j - 1]; }
    }
  }

  lemma CutItems(bs: seq<Block>, i: nat, size: nat)
    requires i < |bs|
    ensures var ds := CutLayout(bs, HDR, i, size);
            |ds| == |bs| + 1 && ds[i] == bs[i] && ds[i + 1] == Block(bs[i].at + HDR + size, false)
  {
  }

  lemma CutListed(bs: seq<Block>, i: nat, size: nat, free: seq<nat>)
    requires i < |bs| && Listed(free, bs)
    ensures Listed(free, CutLayout(bs, HDR, i, size))
  {
    var ds := CutLayout(bs, HDR, i, size);
    forall j | 0 <= j < |free| ensures Block(free[j], false) in ds {
      var k :| 0 <= k < |bs| && bs[k] == Block(free[j], false);
      assert ds[if k > i then k + 1 else k] == bs[k];
    }
  }

  lemma FlagTiled(bs: seq<Block>, end: nat, i: nat, used: bool, free: seq<nat>)
    requires Tiled(bs, HDR, end) && i < |bs| && bs[i].at !in free && Listed(free, bs)
    ensures Tiled(bs[i := Block(bs[i].at, used)], HDR, end)
    ensures Listed(free, bs[i := Block(bs[i].at, used)])
  {
    var ds := bs[i := Block(bs[i].at, used)];
    forall j | 0 <= j < |free| ensures Block(free[j], false) in ds {
      var k :| 0 <= k < |bs| && bs[k] == Block(free[j], false);
      assert ds[k] == bs[k];
    }
  }

  /** The magic word of a block is no link word of a listed item. */
  lemma MagicApart(bs: seq<Block>, end: nat, i: nat, free: seq<nat>)
    requires Tiled(bs, HDR, end) && i < |bs| && Listed(free, bs)
    ensures bs[i].at < end
    ensures forall j :: 0 <= j < |free| ==> bs[i].at != free[j] + NEXT_FREE && bs[i].at != free[j] + PREV_FREE
  {
    forall j | 0 <= j < |free| ensures bs[i].at != free[j] + NEXT_FREE && bs[i].at != free[j] + PREV_FREE {
      var k :| 0 <= k < |bs| && bs[k] == Block(free[j], false);
    }
  }

  lemma RingDistinct(w: seq<int>, free: seq<nat>, head: nat)
    requires Ring(w, free, head)
    ensures forall j, k :: 0 <= j < k < |free| ==> free[j] != free[k]
  {
  }

  lemma SplitFresh(bs: seq<Block>, end: nat, i: nat, size: nat, free: seq<nat>)
    requires Tiled(bs, HDR, end) && i < |bs| && size + HDR <= Room(bs, HDR, end, i) && Listed(free, bs)
    ensures var ds := CutLayout(bs, HDR, i, size);
            && |ds| == |bs| + 1 && ds[i] == bs[i] && ds[i + 1] == Block(bs[i].at + HDR + size, false)
            && bs[i].at + HDR + size !in free
  {
    var ds := CutLayout(bs, HDR, i, size);
    forall j | 0 <= j < |free| ensures free[j] != bs[i].at + HDR + size {
      var k := ListedIndex(free, bs, j);
    }
  }

  /** Allocation in two steps: cut the block, then flag its first part. */
  lemma CarveIsCutAndFlag(bs: seq<Block>, end: nat, i: nat, size: nat)
    requires i < |bs| && Room(bs, HDR, end, i) >= size + HDR + MINIALLOC
    ensures Carve(bs, HDR, end, i, size, MINIALLOC) == CutLayout(bs, HDR, i, size)[i := Block(bs[i].at, true)]
  {
  }

  lemma CarveIsFlag(bs: seq<Block>, end: nat, i: nat, size: nat)
    requires i < |bs| && Room(bs, HDR, end, i) < size + HDR + MINIALLOC
    ensures Carve(bs, HDR, end, i, size, MINIALLOC) == bs[i := Block(bs[i].at, true)]
  {
  }

  /** What is left of the free list once item k, block i, is off it. */
  lemma TakenOff(w: seq<int>, bs: seq<Block>, end: nat, free: seq<nat>, k: nat, i: nat)
    requires Tiled(bs, HDR, end) && Listed(free, bs) && Ring(w, free, end + HDR)
    requires k < |free| && i < |bs| && bs[i].at == free[k]
    ensures bs[i].at !in Without(free, k) && Listed(Without(free, k), bs)
    ensures Exact(free, bs) ==> forall b :: b in bs && !b.used && b.at != bs[i].at ==> b.at in Without(free, k)
  {
    RingDistinct(w, free, end + HDR);
    WithoutExact(bs, end, free, k, i);
  }

  /** The link words of block i are free for use once its item k is off the list. */
  lemma ClearNodes(w: seq<int>, free: seq<nat>, head: nat, bs: seq<Block>, end: nat, k: nat, i: nat)
    requires Ring(w, free, head) && k < |free| && i < |bs| && bs[i] == Block(free[k], false) && head == end + HDR
    ensures head + HDR <= |w| && free[k] + HDR <= head && LinkWord(bs, free[k] + NEXT_FREE)
            && LinkWord(bs, free[k] + PREV_FREE)
    ensures forall j :: 0 <= j < |Without(free, k)| ==>
              && Without(free, k)[j] + HDR <= head
              && (Without(free, k)[j] + HDR <= free[k] || free[k] + HDR <= Without(free, k)[j])
  {
    var rest := Without(free, k);
    forall j | 0 <= j < |rest|
      ensures rest[j] + HDR <= head && (rest[j] + HDR <= free[k] || free[k] + HDR <= rest[j])
    {
      assert rest[j] == free[if j < k then j else j + 1];
    }
  }

  /** What taking item k of the free list, block i, amounts to. */
  lemma TakeFacts(w: seq<int>, bs: seq<Block>, end: nat, free: seq<nat>, size: nat, k: nat, i: nat)
    requires Tiled(bs, HDR, end) && Exact(free, bs) && Coalesced(bs) && Ring(w, free, end + HDR)
    requires FirstListed(bs, end, free, size, k, i)
    ensures k < |free| && i < |bs| && bs[i] == Block(free[k], false) && Room(bs, HDR, end, i) >= size
    ensures var ds, split := Carve(bs, HDR, end, i, size, MINIALLOC), Room(bs, HDR, end, i) >= size + HDR + MINIALLOC;
            var now := (if split then [bs[i].at + HDR + size] else []) + Without(free, k);
            && Exact(now, ds) && Coalesced(ds) && Carved(bs, ds, end, free, now, size, bs[i].at + HDR, k, i)
            && Total(ds, end, false, HDR) == Total(bs, end, false, HDR) - if split then size + HDR
               else Room(bs, HDR, end, i)
  {
    hide Tiled, Ring, Coalesced, AllSmall, Carve, Total;
    TakenOff(w, bs, end, free, k, i);
    hide Exact, Listed, Without;
    CarveExact(bs, end, i, size, Without(free, k));
    CarveTotals(bs, HDR, end, i, size, MINIALLOC);
    CarveTiled(bs, HDR, end, i, size, MINIALLOC);
  }

  lemma EnoughFound(bs: seq<Block>, end: nat, free: seq<nat>, size: nat, k: nat, i: nat)
    requires FirstListed(bs, end, free, size, k, i)
    ensures Enough(bs, end, size) && i < |bs|
  {
  }

  // ----- freeing -----

  /** The free list holds the free blocks, but for the one at `a` while its insertion is pending. */
  ghost predicate Pending(free: seq<nat>, bs: seq<Block>, a: int, insert: bool) {
    && Listed(free, bs)
    && (insert ==> a !in free)
    && forall b :: b in bs && !b.used && !(insert && b.at == a) ==> b.at in free
  }

  /** Absorbing takes one block out of the layout. */
  lemma AbsorbedBlocks(bs: seq<Block>, end: nat, i: nat, b: Block)
    requires Tiled(bs, HDR, end) && i + 1 < |bs|
    ensures b in Replace(bs, i, i + 2, [bs[i]]) <==> b in bs && b != bs[i + 1]
    ensures b in Replace(bs, i, i + 2, [bs[i]]) ==> b.at != bs[i + 1].at
  {
    hide Tiled, Replace;
    var ds := Replace(bs, i, i + 2, [bs[i]]);
    AbsorbIndex(bs, i, i);
    if b in ds {
      var k: nat :| k < |ds| && ds[k] == b;
      AbsorbIndex(bs, i, k);
      AddressesDiffer(bs, end, i + 1, if k > i then k + 1 else k);
    }
    if b in bs && b != bs[i + 1] {
      var k: nat :| k < |bs| && bs[k] == b;
      AbsorbIndex(bs, i, if k > i then k - 1 else k);
    }
  }

  /** A used block is on no list of free blocks. */
  lemma UsedNotListed(bs: seq<Block>, end: nat, free: seq<nat>, i: nat)
    requires Tiled(bs, HDR, end) && Listed(free, bs) && i < |bs| && bs[i].used
    ensures bs[i].at !in free
  {
    forall j | 0 <= j < |free| ensures free[j] != bs[i].at {
      var k := ListedIndex(free, bs, j);
    }
  }

  lemma UnusePending(bs: seq<Block>, end: nat, free: seq<nat>, i: nat)
    requires Tiled(bs, HDR, end) && Exact(free, bs) && i < |bs| && bs[i].used
    ensures Pending(free, Unuse(bs, i), bs[i].at, true)
  {
    UsedNotListed(bs, end, free, i);
    FlagTiled(bs, end, i, false, free);
    var ds := Unuse(bs, i);
    forall b | b in ds && !b.used && b.at != bs[i].at ensures b.at in free {
      var k :| 0 <= k < |ds| && ds[k] == b;
      assert bs[k] == b && b in bs;
    }
  }

  /** The freed block joins the free block before it, whose place in the list it shares from then on. */
  lemma LeftPending(bs: seq<Block>, end: nat, free: seq<nat>, i: nat)
    requires Tiled(bs, HDR, end) && i + 1 < |bs| && !bs[i].used && Pending(free, bs, bs[i + 1].at, true)
    ensures Pending(free, Replace(bs, i, i + 2, [bs[i]]), bs[i].at, false)
  {
    var ds := Replace(bs, i, i + 2, [bs[i]]);
    forall j | 0 <= j < |free| ensures Block(free[j], false) in ds {
      AbsorbedBlocks(bs, end, i, Block(free[j], false));
      assert free[j] in free;
    }
    forall b | b in ds && !b.used ensures b.at in free {
      AbsorbedBlocks(bs, end, i, b);
    }
  }

  /** The block behind is absorbed and its item k leaves the list. */
  lemma RightPending(bs: seq<Block>, end: nat, free: seq<nat>, i: nat, k: nat, a: int, insert: bool)
    requires Tiled(bs, HDR, end) && i + 1 < |bs| && Pending(free, bs, a, insert) && a != bs[i + 1].at
    requires k < |free| && free[k] == bs[i + 1].at
    requires forall j, l :: 0 <= j < l < |free| ==> free[j] != free[l]
    ensures Pending(Without(free, k), Replace(bs, i, i + 2, [bs[i]]), a, insert)
    ensures Listed(Without(free, k), Replace(bs, i, i + 2, [bs[i]]))
  {
    var ds, rest := Replace(bs, i, i + 2, [bs[i]]), Without(free, k);
    WithoutExact(bs, end, free, k, i + 1);
    forall j | 0 <= j < |rest| ensures Block(rest[j], false) in ds && rest[j] in free {
      assert rest[j] in rest && rest[j] == free[if j < k then j else j + 1];
      AbsorbedBlocks(bs, end, i, Block(rest[j], false));
    }
    forall b | b in ds && !b.used && !(insert && b.at == a) ensures b.at in rest {
      AbsorbedBlocks(bs, end, i, b);
    }
  }

  /** Outcome of rt_memheap_free on a live block. */
  ghost predicate Freed(bs: seq<Block>, ds: seq<Block>, free: seq<nat>, now: seq<nat>, ptr: int) {
    exists i: nat :: i < |bs| && bs[i].used && bs[i].at + HDR == ptr && ds == Release(bs, i)
      && Relisted(Unuse(bs, i), i, free, now)
  }

  lemma MergeBothRelisted(bs: seq<Block>, i: nat, free: seq<nat>, rest: seq<nat>, now: seq<nat>)
    requires i < |bs| && !bs[i].used && Unlisted(MergedBackward(bs, i), MergeLow(bs, i), free, rest)
    requires now == if i > 0 && !bs[i - 1].used then rest else [bs[i].at] + rest
    ensures Relisted(bs, i, free, now)
  {
    MergeStepsBack(bs, i);
    assert Unlisted(bs, i, free, rest);
  }

  lemma PendingSettled(bs: seq<Block>, free: seq<nat>, a: int)
    requires Pending(free, bs, a, false)
    ensures Exact(free, bs)
  {
  }

  lemma PendingPushed(bs: seq<Block>, free: seq<nat>, a: nat)
    requires Pending(free, bs, a, true) && Block(a, false) in bs
    ensures Exact([a] + free, bs)
  {
    var now := [a] + free;
    forall j | 0 <= j < |now| ensures Block(now[j], false) in bs {
      if j > 0 { assert now[j] == free[j - 1]; }
    }
    forall b | b in bs && !b.used ensures b.at in now {
      if b.at == a { assert now[0] == a; } else { assert b.at in free; }
    }
  }

  /** Every free block but the pending one has a place in the list. */
  lemma PendingIndex(bs: seq<Block>, end: nat, free: seq<nat>, i: nat, a: int, insert: bool) returns (k: nat)
    requires Pending(free, bs, a, insert) && i < |bs| && !bs[i].used && bs[i].at != a
    ensures k < |free| && free[k] == bs[i].at
  {
    assert bs[i] in bs && bs[i].at in free;
    k :| 0 <= k < |free| && free[k] == bs[i].at;
  }

  /** The list without the free block behind block j, if that is one. */
  ghost predicate Unlisted(bs: seq<Block>, j: nat, free: seq<nat>, rest: seq<nat>) {
    if j + 1 < |bs| && !bs[j + 1].used
    then exists k: nat :: k < |free| && free[k] == bs[j + 1].at && rest == Without(free, k)
    else rest == free
  }

  /** The list after block i is freed: its right neighbour leaves, and unless the left one took it in, the block
      itself comes first. */
  ghost predicate Relisted(bs: seq<Block>, i: nat, free: seq<nat>, now: seq<nat>)
    requires i < |bs|
  {
    exists rest: seq<nat> :: Unlisted(bs, i, free, rest)
      && now == if i > 0 && !bs[i - 1].used then rest else [bs[i].at] + rest
  }

  /** The place in the list of the free block behind block j, and what is left without it. */
  lemma NextPlace(w: seq<int>, bs: seq<Block>, end: nat, free: seq<nat>, j: nat, a: int, insert: bool) returns (k: nat)
    requires Tiled(bs, HDR, end) && Ring(w, free, end + HDR) && Pending(free, bs, a, insert)
    requires j + 1 < |bs| && bs[j].at == a && !bs[j + 1].used
    ensures k < |free| && free[k] == bs[j + 1].at
    ensures Pending(Without(free, k), Replace(bs, j, j + 2, [bs[j]]), a, insert)
    ensures Listed(Without(free, k), Replace(bs, j, j + 2, [bs[j]]))
  {
    k := PendingIndex(bs, end, free, j + 1, a, insert);
    RingDistinct(w, free, end + HDR);
    hide Ring, Without;
    RightPending(bs, end, free, j, k, a, insert);
  }

  /** What freeing block i does to the layout. */
  lemma FreeFacts(bs: seq<Block>, end: nat, i: nat)
    requires Tiled(bs, HDR, end) && Coalesced(bs) && i < |bs| && bs[i].used
    ensures Coalesced(Release(bs, i))
    ensures Live(Release(bs, i), HDR, end) == Live(bs, HDR, end) - {bs[i].at + HDR}
    ensures Total(Release(bs, i), end, false, HDR)
            == Total(bs, end, false, HDR) + Room(bs, HDR, end, i) + HDR * (|bs| - |Release(bs, i)|)
    ensures Room(bs, HDR, end, i) >= 0 && |Release(bs, i)| <= |bs|
  {
    hide Live, Total, Coalesced;
    ReleaseTiled(bs, HDR, end, i);
    ReleaseLive(bs, HDR, end, i);
    ReleaseTotals(bs, HDR, end, i);
  }

  /** The tests on the neighbours' magic words. */
  lemma Neighbours(w: seq<int>, bs: seq<Block>, end: nat, self: int, i: nat)
    requires Chain(w, bs, end, self) && i < |bs|
    ensures bs[i].at + HDR <= |w|
    ensures var next, prev := Next(bs, end, i), Before(bs, end, i);
            && w[bs[i].at + NEXT] == next && w[bs[i].at + PREV] == prev && next + HDR <= |w| && prev + HDR <= |w|
            && (w[next] != USED <==> i + 1 < |bs| && !bs[i + 1].used)
            && (w[prev] != USED <==> i > 0 && !bs[i - 1].used)
  {
    assert ItemAt(w, bs, end, self, i) && ItemAt(w, bs, end, self, i + 1);
    assert ItemAt(w, bs, end, self, if i > 0 then i - 1 else |bs|);
  }

  // ----- resizing -----

  /** The free block behind the used block ptr can give up the missing words and stay a block. */
  ghost predicate CanGrow(bs: seq<Block>, end: nat, ptr: int, size: nat) {
    exists i :: 0 <= i < |bs| - 1 && bs[i].at + HDR == ptr && GrowsAt(bs, end, i, size)
  }

  ghost predicate GrowsAt(bs: seq<Block>, end: nat, i: nat, size: nat)
    requires i + 1 < |bs|
  {
    !bs[i + 1].used && Room(bs, HDR, end, i) + Room(bs, HDR, end, i + 1) > size + MINIALLOC
  }

  lemma GrowsIff(bs: seq<Block>, end: nat, i: nat, size: nat)
    requires Tiled(bs, HDR, end) && i < |bs|
    ensures CanGrow(bs, end, bs[i].at + HDR, size) <==> i + 1 < |bs| && GrowsAt(bs, end, i, size)
  {
  }

  /** The source's own test for growing in place: the sums are of type rt_size_t and wrap. */
  predicate InPlaceTest(nextsize: int, oldsize: int, newsize: int) {
    (4 * nextsize + 4 * oldsize) % SPACE > (4 * newsize + 4 * MINIALLOC) % SPACE
  }

  ghost predicate Passes(bs: seq<Block>, end: nat, i: nat, size: nat) {
    i + 1 < |bs| && !bs[i + 1].used && InPlaceTest(Room(bs, HDR, end, i + 1), Room(bs, HDR, end, i), size)
  }

  /** Block ptr is followed by a free item, so that the test is made at all. */
  ghost predicate FreeBehind(bs: seq<Block>, ptr: int) {
    exists i :: 0 <= i < |bs| - 1 && bs[i].at + HDR == ptr && !bs[i + 1].used
  }

  /** Live blocks hold MINIALLOC words or more. */
  ghost predicate Ample(live: map<int, int>) {
    forall p :: p in live ==> live[p] >= MINIALLOC
  }

  lemma TakenAmple(bs: seq<Block>, end: nat, i: nat, size: nat)
    requires Tiled(bs, HDR, end) && Ample(Live(bs, HDR, end))
    requires i < |bs| && !bs[i].used && Room(bs, HDR, end, i) >= size >= MINIALLOC
    ensures Ample(Live(Carve(bs, HDR, end, i, size, MINIALLOC), HDR, end))
  {
    hide Tiled, Carve, Live;
    CarveLive(bs, HDR, end, i, size, MINIALLOC);
  }

  /** The two blocks the test looks at lie in the pool, side by side. */
  lemma RoomsInside(bs: seq<Block>, end: nat, i: nat)
    requires Tiled(bs, HDR, end) && i + 1 < |bs|
    ensures Room(bs, HDR, end, i) >= 0 && Room(bs, HDR, end, i + 1) >= 0
    ensures Room(bs, HDR, end, i) + Room(bs, HDR, end, i + 1) + 2 * HDR <= end
  {
  }

  /** Without wrapping the test would compare what it means to compare; it does so exactly if the item behind is in
      use (or the tail), or the request is of MAX_RESIZE bytes or less. For every larger request with a free item
      behind, the test passes although the two blocks together are far too small. */
  lemma TestAgreesIff(bs: seq<Block>, end: nat, i: nat, bytes: nat)
    requires Tiled(bs, HDR, end) && Ample(Live(bs, HDR, end)) && 4 * (end + HDR) < SPACE
    requires i < |bs| && bs[i].used && bytes <= MAX_REQUEST
    ensures (Passes(bs, end, i, Want(bytes)) <==> CanGrow(bs, end, bs[i].at + HDR, Want(bytes)))
            <==> i + 1 == |bs| || bs[i + 1].used || bytes <= MAX_RESIZE
    ensures bytes > MAX_RESIZE ==> !CanGrow(bs, end, bs[i].at + HDR, Want(bytes))
  {
    hide Tiled, Live, InPlaceTest, Want, CanGrow;
    GrowsIff(bs, end, i, Want(bytes));
    WantRange(bytes);
    BlockAmple(bs, end, i);
    if i + 1 < |bs| {
      RoomsInside(bs, end, i);
      TestIff(Room(bs, HDR, end, i + 1), Room(bs, HDR, end, i), Want(bytes));
    }
  }

  lemma WantRange(bytes: nat)
    requires bytes <= MAX_REQUEST
    ensures MINIALLOC <= Want(bytes) && 4 * Want(bytes) < SPACE
    ensures bytes <= MAX_RESIZE <==> 4 * (Want(bytes) + MINIALLOC) < SPACE
  {
  }

  lemma BlockAmple(bs: seq<Block>, end: nat, i: nat)
    requires Tiled(bs, HDR, end) && Ample(Live(bs, HDR, end)) && i < |bs| && bs[i].used
    ensures Room(bs, HDR, end, i) >= MINIALLOC
  {
    hide Live;
    BlockLive(bs, HDR, end, i);
  }

  lemma TestIff(nextsize: nat, oldsize: nat, newsize: nat)
    requires oldsize >= MINIALLOC && 4 * (nextsize + oldsize) < SPACE && 4 * newsize < SPACE
    ensures (InPlaceTest(nextsize, oldsize, newsize) <==> nextsize + oldsize > newsize + MINIALLOC)
            <==> 4 * (newsize + MINIALLOC) < SPACE
    ensures 4 * (newsize + MINIALLOC) >= SPACE ==> nextsize + oldsize <= newsize + MINIALLOC
  {
  }

  lemma BlockInside(bs: seq<Block>, end: nat, i: nat)
    requires Tiled(bs, HDR, end) && i < |bs|
    ensures bs[i].at + HDR <= Next(bs, end, i) <= end
  {
  }

  /** Where the item header is then built, byte addresses taken modulo SPACE: inside the header of the block that was
      to grow. */
  lemma WrappedCut(header: nat, bytes: nat)
    requires MAX_RESIZE < bytes <= MAX_REQUEST && 4 * (header + HDR) < SPACE
    ensures 4 * header < (4 * (header + HDR) + 4 * Want(bytes)) % SPACE < 4 * (header + HDR)
  {
  }

  /** A heap of 100 words, 12 bytes allocated, a request to resize them to 0xFFFF_FFF4: the free item behind has 79
      words, and the test passes. */
  lemma TestWraps()
    ensures var bs := Carve([Block(0, false)], HDR, 94, 0, Want(12), MINIALLOC);
            && bs == [Block(0, true), Block(9, false)] && Tiled(bs, HDR, 94)
            && Room(bs, HDR, 94, 0) == 3 && Room(bs, HDR, 94, 1) == 79
            && Passes(bs, 94, 0, Want(0xFFFF_FFF4)) && !CanGrow(bs, 94, HDR, Want(0xFFFF_FFF4))
  {
  }

  /** Growing in place is absorbing the block behind and cutting at the new size. */
  lemma GrowLists(w: seq<int>, bs: seq<Block>, end: nat, free: seq<nat>, i: nat, size: nat) returns (k: nat)
    requires Tiled(bs, HDR, end) && Ring(w, free, end + HDR) && Exact(free, bs)
    requires i + 1 < |bs| && bs[i].used && GrowsAt(bs, end, i, size)
    ensures k < |free| && free[k] == bs[i + 1].at
    ensures var es, rest := Replace(bs, i, i + 2, [bs[i]]), Without(free, k);
            && Listed(rest, bs) && Listed(rest, es) && Grow(bs, HDR, i, size) == CutLayout(es, HDR, i, size)
            && Tiled(es, HDR, end) && i < |es| && es[i] == bs[i] && Room(es, HDR, end, i) >= size + HDR
            && Pending(rest, es, NULL, false)
  {
    hide Ring, Without, Tiled, Exact, Pending;
    ExactPending(bs, free, NULL);
    k := PendingIndex(bs, end, free, i + 1, NULL, false);
    RingDistinct(w, free, end + HDR);
    TakenOff(w, bs, end, free, k, i + 1);
    AbsorbedTiled(bs, end, i);
    RightPending(bs, end, free, i, k, NULL, false);
    GrowIsAbsorbAndCut(bs, end, i, size);
  }

  lemma AbsorbedTiled(bs: seq<Block>, end: nat, i: nat)
    requires Tiled(bs, HDR, end) && i + 1 < |bs|
    ensures Tiled(Replace(bs, i, i + 2, [bs[i]]), HDR, end)
  {
    ReplaceTiled(bs, HDR, end, i, i + 2, [bs[i]]);
  }

  lemma GrowIsAbsorbAndCut(bs: seq<Block>, end: nat, i: nat, size: nat)
    requires i + 1 < |bs| && bs[i].used
    ensures var es := Replace(bs, i, i + 2, [bs[i]]);
            && es[i] == bs[i] && Grow(bs, HDR, i, size) == CutLayout(es, HDR, i, size)
            && Room(es, HDR, end, i) == Room(bs, HDR, end, i) + HDR + Room(bs, HDR, end, i + 1)
  {
    var es := Replace(bs, i, i + 2, [bs[i]]);
    if i + 2 < |bs| { assert es[i + 1] == bs[i + 2]; }
  }

  /** The tail cut off a used block waits to be put on the free list. */
  lemma CutPending(bs: seq<Block>, end: nat, free: seq<nat>, i: nat, size: nat, a: int)
    requires Tiled(bs, HDR, end) && Pending(free, bs, a, false)
    requires i < |bs| && bs[i].used && size + HDR <= Room(bs, HDR, end, i)
    ensures Pending(free, CutLayout(bs, HDR, i, size), bs[i].at + HDR + size, true)
  {
    hide Tiled, Listed;
    var ds := CutLayout(bs, HDR, i, size);
    SplitFresh(bs, end, i, size, free);
    CutListed(bs, i, size, free);
    forall b | b in ds && !b.used && b.at != bs[i].at + HDR + size ensures b.at in free {
      var k :| 0 <= k < |ds| && ds[k] == b;
      assert bs[if k > i then k - 1 else k] == b && b in bs;
    }
  }

  lemma ExactPending(bs: seq<Block>, free: seq<nat>, a: int)
    requires Exact(free, bs)
    ensures Pending(free, bs, a, false) && Listed(free, bs)
  {
  }

  lemma GrowFacts(bs: seq<Block>, end: nat, i: nat, size: nat)
    requires Tiled(bs, HDR, end) && Coalesced(bs) && i + 1 < |bs| && bs[i].used && GrowsAt(bs, end, i, size)
    ensures Coalesced(Grow(bs, HDR, i, size))
    ensures Live(Grow(bs, HDR, i, size), HDR, end) == Live(bs, HDR, end)[bs[i].at + HDR := size]
    ensures Total(Grow(bs, HDR, i, size), end, false, HDR)
            == Total(bs, end, false, HDR) - (size - Room(bs, HDR, end, i))
  {
    hide Tiled, Coalesced, Live, Total, Grow;
    GrowTiled(bs, HDR, end, i, size);
    GrowLive(bs, HDR, end, i, size);
    GrowTotals(bs, HDR, end, i, size);
  }

  /** What trimming block i does to the layout and to the available words. */
  lemma ShrinkFacts(bs: seq<Block>, end: nat, i: nat, size: nat)
    requires Tiled(bs, HDR, end) && Coalesced(bs) && i < |bs| && bs[i].used && size + HDR <= Room(bs, HDR, end, i)
    ensures var ds, es := Trim(bs, HDR, i, size), CutLayout(bs, HDR, i, size);
            && i + 1 < |es| && i + 1 < |ds| && ds == MergedForward(es, i + 1)
            && es[i + 1] == ds[i + 1] == Block(bs[i].at + HDR + size, false)
            && Coalesced(ds) && Live(ds, HDR, end) == Live(bs, HDR, end)[bs[i].at + HDR := size]
            && Total(ds, end, false, HDR) >= Total(bs, end, false, HDR)
            && Total(ds, end, false, HDR)
               == Total(bs, end, false, HDR) + Room(ds, HDR, end, i + 1)
                  - if i + 2 < |es| && !es[i + 2].used then Room(es, HDR, end, i + 2) else 0
  {
    var es := Split(bs, HDR, i, size);
    TrimFacts(bs, HDR, end, i, size);
    TrimTotals(bs, HDR, end, i, size);
    SplitNeighbours(bs, HDR, i, size);
    hide Tiled, Coalesced, Live, Total;
    TrimRoom(bs, end, i, size);
  }

  lemma TrimRoom(bs: seq<Block>, end: nat, i: nat, size: nat)
    requires i < |bs| && bs[i].used
    ensures var ds, es := Trim(bs, HDR, i, size), Split(bs, HDR, i, size);
            && |es| == |bs| + 1 && i + 1 < |ds| && ds == MergedForward(es, i + 1)
            && es[i + 1] == ds[i + 1] == Block(bs[i].at + HDR + size, false)
            && (i + 2 < |es| ==> es[i + 2] == bs[i + 1])
            && (if i + 1 < |bs| && !bs[i + 1].used
                then Room(ds, HDR, end, i + 1) == Room(bs, HDR, end, i) + Room(bs, HDR, end, i + 1) - size
                     && Room(es, HDR, end, i + 2) == Room(bs, HDR, end, i + 1)
                else Room(ds, HDR, end, i + 1) == Room(bs, HDR, end, i) - size - HDR)
  {
    var es := Split(bs, HDR, i, size);
    var ds := Trim(bs, HDR, i, size);
    SplitNeighbours(bs, HDR, i, size);
    if i + 1 < |bs| {
      assert es[i + 2] == bs[i + 1];
      if i + 2 < |bs| { assert es[i + 3] == bs[i + 2]; }
    }
    assert ds == MergedForward(es, i + 1);
    if i + 1 < |bs| && !bs[i + 1].used {
      if i + 2 < |bs| { assert ds[i + 2] == es[i + 3]; }
    } else if i + 1 < |bs| {
      assert ds[i + 2] == es[i + 2];
    }
  }

  // ----- moving -----

  /** Writing into the payload of a used block leaves both lists. */
  ghost predicate PayloadWrites(w: seq<int>, v: seq<int>, bs: seq<Block>, end: nat, i: nat)
    requires i < |bs|
  {
    |w| == |v| && forall q :: 0 <= q < |w| && !(bs[i].at + HDR <= q < Next(bs, end, i)) ==> w[q] == v[q]
  }

  lemma PayloadItem(w: seq<int>, v: seq<int>, bs: seq<Block>, end: nat, self: int, i: nat, k: nat)
    requires Chain(w, bs, end, self) && i < |bs| && PayloadWrites(w, v, bs, end, i) && k <= |bs|
    ensures ItemAt(v, bs, end, self, k)
    ensures At(bs, end, k) + HDR <= |w| == |v| == end + 2 * HDR
    ensures forall q :: At(bs, end, k) <= q < At(bs, end, k) + HDR ==> w[q] == v[q]
    ensures forall q :: end + HDR <= q < |w| ==> w[q] == v[q]
  {
    assert ItemAt(w, bs, end, self, k);
    assert Next(bs, end, i) == At(bs, end, i + 1) <= end;
    if k != i { ItemsApart(w, bs, end, self, i, k); }
    if k != i + 1 { ItemsApart(w, bs, end, self, i + 1, k); }
  }

  lemma PayloadLists(w: seq<int>, v: seq<int>, bs: seq<Block>, end: nat, self: int, i: nat, free: seq<nat>)
    requires Chain(w, bs, end, self) && Ring(w, free, end + HDR) && Listed(free, bs)
    requires i < |bs| && PayloadWrites(w, v, bs, end, i)
    ensures Chain(v, bs, end, self) && Ring(v, free, end + HDR)
  {
    PayloadItem(w, v, bs, end, self, i, i);
    forall k | 0 <= k <= |bs| ensures ItemAt(v, bs, end, self, k) {
      PayloadItem(w, v, bs, end, self, i, k);
    }
    PayloadRing(w, v, bs, end, self, i, free);
  }

  lemma PayloadRing(w: seq<int>, v: seq<int>, bs: seq<Block>, end: nat, self: int, i: nat, free: seq<nat>)
    requires Chain(w, bs, end, self) && Ring(w, free, end + HDR) && Listed(free, bs)
    requires i < |bs| && PayloadWrites(w, v, bs, end, i)
    ensures Ring(v, free, end + HDR)
  {
    hide Chain, PayloadWrites, Listed, ItemAt;
    PayloadItem(w, v, bs, end, self, i, i);
    forall j | 0 <= j < |free|
      ensures v[free[j] + NEXT_FREE] == w[free[j] + NEXT_FREE] && v[free[j] + PREV_FREE] == w[free[j] + PREV_FREE]
    {
      var k := ListedIndex(free, bs, j);
      PayloadItem(w, v, bs, end, self, i, k);
    }
    RingSame(w, v, free, end + HDR);
  }

  lemma ChainLength(w: seq<int>, bs: seq<Block>, end: nat, self: int)
    requires Chain(w, bs, end, self)
    ensures |w| == end + 2 * HDR
  {
  }

  /** Outcome of rt_memheap_realloc for `size` words. */
  ghost predicate Reallocated(bs: seq<Block>, ds: seq<Block>, end: nat, free: seq<nat>, now: seq<nat>,
                              ptr: int, bytes: nat, r: int) {
    var live, after, size := Live(bs, HDR, end), Live(ds, HDR, end), Want(bytes);
    if bytes == 0 then
      r == NULL && after == live - {ptr}
    else if ptr == NULL then
      Allocated(bs, ds, end, free, now, size, r)
    else
      ptr in live && Resized(bs, ds, end, ptr, size, r)
  }

  ghost predicate Resized(bs: seq<Block>, ds: seq<Block>, end: nat, ptr: int, size: nat, r: int)
    requires ptr in Live(bs, HDR, end)
  {
    var live, after := Live(bs, HDR, end), Live(ds, HDR, end);
    if size > live[ptr] then
      if CanGrow(bs, end, ptr, size) then r == ptr && after == live[ptr := size]
      else if r == NULL then ds == bs && !CanAllocate(bs, end, size)
      else CanAllocate(bs, end, size) && Moved(live, after, ptr, r, size)
    else if size + HDR + MINIALLOC >= live[ptr] then
      r == ptr && ds == bs
    else
      r == ptr && after == live[ptr := size]
  }

  /** Whichever way rt_memheap_realloc takes, the block it returns is live, large enough, and the only one to
      change. */
  lemma ReallocatedOwns(bs: seq<Block>, ds: seq<Block>, end: nat, free: seq<nat>, now: seq<nat>, ptr: int, bytes: nat,
      r: int)
    requires Tiled(bs, HDR, end) && Coalesced(bs) && NULL !in Live(bs, HDR, end) && r != NULL
    requires Reallocated(bs, ds, end, free, now, ptr, bytes, r)
    ensures ptr == NULL || ptr in Live(bs, HDR, end)
    ensures OnlyChanged(Live(bs, HDR, end), Live(ds, HDR, end), ptr, r) && 4 * Live(ds, HDR, end)[r] >= bytes
  {
    hide Tiled, Coalesced, Live, Allocated, CanAllocate, CanGrow;
    var live, after := Live(bs, HDR, end), Live(ds, HDR, end);
    if ptr == NULL {
      AllocatedLive(bs, ds, end, free, now, Want(bytes), r);
      assert live - {ptr} == live;
    } else if r == ptr {
      assert (live - {ptr})[r := after[r]] == live[r := after[r]];
      assert ds == bs ==> after == live[r := after[r]];
    } else {
      assert (live - {ptr})[r := after[r]] == live[r := after[r]] - {ptr};
    }
  }

  /** Unlike rt_realloc, giving up words never fails and never moves the block. */
  lemma ShrinkStaysPut(bs: seq<Block>, ds: seq<Block>, end: nat, free: seq<nat>, now: seq<nat>, ptr: int, bytes: nat,
      r: int)
    requires Tiled(bs, HDR, end) && bytes > 0 && ptr != NULL && Reallocated(bs, ds, end, free, now, ptr, bytes, r)
    requires Want(bytes) <= Live(bs, HDR, end)[ptr]
    ensures r == ptr && ptr in Live(ds, HDR, end)
            && Want(bytes) <= Live(ds, HDR, end)[ptr] < Want(bytes) + HDR + MINIALLOC + 1
  {
  }

  /** The words written by rt_memheap_init form the two lists. */
  lemma FreshLists(w: seq<int>, end: nat, self: int)
    requires |w| == end + 2 * HDR && end >= HDR
    requires w[0] == FREED && w[POOL] == self && w[NEXT] == end && w[PREV] == end
    requires w[end] == USED && w[end + POOL] == self && w[end + NEXT] == 0 && w[end + PREV] == 0
    requires Linked(w, end + HDR, 0) && Linked(w, 0, end + HDR)
    ensures Tiled([Block(0, false)], HDR, end)
    ensures Chain(w, [Block(0, false)], end, self) && Ring(w, [0], end + HDR)
  {
    assert ItemAt(w, [Block(0, false)], end, self, 0) && ItemAt(w, [Block(0, false)], end, self, 1);
    assert Walk([0], end + HDR) == [end + HDR, 0, end + HDR];
  }

  class Heap {
    const mem: array<int>          // the pool, then the heap object's free_header item
    const poolSize: nat
    const end: nat                 // address of the tail item
    const self: int                // what pool_ptr holds
    var availableSize: int
    var maxUsedSize: int
    ghost var blocks: seq<Block>
    ghost var free: seq<nat>       // the free list, most recently freed first

    /** Both lists are in order; every listed item is a free block. */
    ghost predicate Threaded()
      reads this, mem
    {
      && poolSize == end + HDR
      && mem.Length == poolSize + HDR
      && Tiled(blocks, HDR, end)
      && Chain(mem[..], blocks, end, self)
      && Ring(mem[..], free, poolSize)
      && Listed(free, blocks)
    }

    ghost predicate Valid()
      reads this, mem
    {
      && Threaded()
      && Exact(free, blocks)
      && Coalesced(blocks)
      && availableSize == Total(blocks, end, false, HDR)
      && maxUsedSize >= poolSize - availableSize
      && 4 * poolSize < SPACE
      && Ample(LiveMap())
    }

    ghost function LiveMap(): map<int, int>
      reads this
    {
      Live(blocks, HDR, end)
    }

    /** rt_memheap_init; the pool must hold the first block's header and the tail. */
    constructor (size: nat, self: int)
      requires size / 4 >= 2 * HDR && size < SPACE
      ensures Valid() && poolSize == size / 4 && blocks == [Block(0, false)] && LiveMap() == map[]
      ensures availableSize == poolSize - 2 * HDR && fresh(mem)
    {
      poolSize := size / 4;
      end := size / 4 - HDR;
      this.self := self;
      availableSize := size / 4 - 2 * HDR;
      maxUsedSize := 2 * HDR;
      var w := new int[size / 4 + HDR];
      Format(w, size / 4 - HDR, self);
      mem := w;
      blocks := [Block(0, false)];
      free := [0];
      new;
      hide Chain, Ring, Tiled, Live, Total;
      FreshLists(mem[..], end, self);
      TotalOne(blocks[0], end, false, HDR);
      LiveOne(blocks[0], HDR, end);
    }

    /** Writes the header item, the first big block and the tail; the block is the only one listed. */
    static method Format(w: array<int>, tail: nat, self: int)
      requires tail >= HDR && w.Length == tail + 2 * HDR
      modifies w
      ensures w[0] == FREED && w[POOL] == self && w[NEXT] == tail && w[PREV] == tail
      ensures w[tail] == USED && w[tail + POOL] == self && w[tail + NEXT] == 0 && w[tail + PREV] == 0
      ensures w[NEXT_FREE] == w[PREV_FREE] == tail + HDR
      ensures w[tail + HDR + NEXT_FREE] == w[tail + HDR + PREV_FREE] == 0
    {
      var head := tail + HDR;
      SetItem(w, head, FREED, self, NULL, NULL, head, head);
      SetItem(w, 0, FREED, self, tail, tail, w[head + NEXT_FREE], head);
      w[w[head + NEXT_FREE] + PREV_FREE] := 0;
      w[head + NEXT_FREE] := 0;
      SetItem(w, tail, USED, self, 0, 0, NULL, NULL);
    }

    /** Fills in the six words of an item header. */
    static method SetItem(w: array<int>, a: nat, magic: int, self: int, next: int, prev: int,
        nextFree: int, prevFree: int)
      requires a + HDR <= w.Length
      modifies w
      ensures w[a] == magic && w[a + POOL] == self && w[a + NEXT] == next && w[a + PREV] == prev
      ensures w[a + NEXT_FREE] == nextFree && w[a + PREV_FREE] == prevFree
      ensures forall q :: 0 <= q < w.Length && !(a <= q < a + HDR) ==> w[q] == old(w[q])
    {
      w[a], w[a + POOL], w[a + NEXT], w[a + PREV] := magic, self, next, prev;
      w[a + NEXT_FREE], w[a + PREV_FREE] := nextFree, prevFree;
    }

    /** Takes item x, k-th in the free list, off the list. */
    method Unlink(x: int, ghost k: nat)
      requires poolSize == end + HDR && Chain(mem[..], blocks, end, self) && Ring(mem[..], free, poolSize)
      requires k < |free| && free[k] == x && Listed(Without(free, k), blocks)
      modifies mem, `free
      ensures Chain(mem[..], blocks, end, self) && Ring(mem[..], free, poolSize) && free == Without(old(free), k)
      ensures Unchanged(old(mem[..]), mem[..], blocks, HDR, end)
    {
      hide Tiled, ItemAt, LinkWord;
      ghost var w, walk := mem[..], Walk(free, poolSize);
      assert Linked(w, walk[k], walk[k + 1]) && Linked(w, walk[k + 1], walk[k + 2]);
      mem[mem[x + NEXT_FREE] + PREV_FREE] := mem[x + PREV_FREE];
      mem[mem[x + PREV_FREE] + NEXT_FREE] := mem[x + NEXT_FREE];
      UnlinkRing(w, mem[..], free, poolSize, k);
      WalkNodes(free, poolSize, k, blocks, end);
      LinkChain(w, mem[..], blocks, end, self);
      LinkUnchanged(w, mem[..], blocks, end, self);
      free := Without(free, k);
    }

    /** Puts the free block x at the front of the free list. */
    method Push(x: int, ghost i: nat)
      requires Threaded() && i < |blocks| && blocks[i].at == x && !blocks[i].used && x !in free
      modifies mem, `free
      ensures Threaded() && free == [blocks[i].at] + old(free)
      ensures Unchanged(old(mem[..]), mem[..], blocks, HDR, end)
    {
      hide Tiled, ItemAt, LinkWord, Chain;
      ghost var w := mem[..];
      PushNodes(free, poolSize, i, blocks, end);
      assert Linked(w, Walk(free, poolSize)[0], Walk(free, poolSize)[1]);
      mem[x + NEXT_FREE] := mem[poolSize + NEXT_FREE];
      mem[x + PREV_FREE] := poolSize;
      mem[mem[poolSize + NEXT_FREE] + PREV_FREE] := x;
      mem[poolSize + NEXT_FREE] := x;
      PushRing(w, mem[..], free, poolSize, x);
      LinkChain(w, mem[..], blocks, end, self);
      LinkUnchanged(w, mem[..], blocks, end, self);
      free := [x as nat] + free;
    }

    /** Links item a and the successor of item b to each other. */
    method JoinItems(a: nat, b: nat)
      requires a + HDR <= b && b + HDR <= mem.Length && b + HDR <= mem[b + NEXT] && mem[b + NEXT] + HDR <= mem.Length
      modifies mem
      ensures var stop := old(mem[b + NEXT]);
              && mem[a + NEXT] == stop && mem[stop + PREV] == a
              && forall q :: 0 <= q < mem.Length && q != a + NEXT && q != stop + PREV ==> mem[q] == old(mem[q])
    {
      mem[mem[b + NEXT] + PREV] := a;
      mem[a + NEXT] := mem[b + NEXT];
    }

    /** Block a takes over the block b behind it. */
    method Absorb(a: int, b: int, ghost i: nat)
      requires Threaded() && i + 1 < |blocks| && blocks[i].at == a && blocks[i + 1].at == b
      modifies mem, `blocks
      ensures Chain(mem[..], blocks, end, self) && Tiled(blocks, HDR, end) && Ring(mem[..], free, poolSize)
      ensures blocks == Replace(old(blocks), i, i + 2, [old(blocks)[i]])
      ensures Unchanged(old(mem[..]), mem[..], old(blocks), HDR, end)
    {
      hide Tiled, Ring, Listed, Chain, Replace;
      ghost var bs, w := blocks, mem[..];
      ItemsOrdered(w, bs, end, self, i);
      ItemsOrdered(w, bs, end, self, i + 1);
      JoinItems(a, b);
      assert Absorbs(w, mem[..], bs, end, i);
      AbsorbChain(w, mem[..], bs, end, self, i);
      AbsorbUnchanged(w, mem[..], bs, end, self, i);
      AbsorbRing(w, mem[..], bs, end, self, i, free);
      blocks := Replace(bs, i, i + 2, [bs[i]]);
    }

    /** Writes the header words of a free item at `cut` and links it between h and h's successor. */
    method InsertItem(h: nat, cut: nat)
      requires h + HDR <= cut && h + HDR <= mem.Length && cut + HDR <= mem[h + NEXT]
               && mem[h + NEXT] + HDR <= mem.Length
      modifies mem
      ensures var stop := old(mem[h + NEXT]);
              && mem[cut] == FREED && mem[cut + POOL] == self && mem[cut + NEXT] == stop && mem[cut + PREV] == h
              && mem[h + NEXT] == cut && mem[stop + PREV] == cut
              && forall q :: 0 <= q < mem.Length && q != h + NEXT && !(cut <= q <= cut + PREV) && q != stop + PREV ==>
                 mem[q] == old(mem[q])
    {
      mem[cut] := FREED;
      mem[cut + POOL] := self;
      mem[cut + PREV] := h;
      mem[cut + NEXT] := mem[h + NEXT];
      mem[mem[h + NEXT] + PREV] := cut;
      mem[h + NEXT] := cut;
    }

    /** Writes a free item behind the first `size` words of block h and links it into the block list. */
    method Cut(h: int, size: nat, ghost i: nat)
      requires Threaded() && i < |blocks| && blocks[i].at == h && Room(blocks, HDR, end, i) >= size + HDR
      modifies mem, `blocks
      ensures Threaded() && blocks == CutLayout(old(blocks), HDR, i, size)
      ensures Unchanged(old(mem[..]), mem[..], blocks, HDR, end)
    {
      hide Ring, Listed;
      ghost var bs, w := blocks, mem[..];
      ItemsApart(w, bs, end, self, i, i + 1);
      assert Next(bs, end, i) == At(bs, end, i + 1);
      hide Tiled, Chain;
      InsertItem(h, h + HDR + size);
      assert Cuts(w, mem[..], bs, end, self, i, size);
      CutChain(w, mem[..], bs, end, self, i, size);
      CutUnchanged(w, mem[..], bs, end, self, i, size);
      CutRing(w, mem[..], bs, end, self, i, size, free);
      blocks := CutLayout(bs, HDR, i, size);
      CutListed(bs, i, size, free);
    }

    /** Sets the magic word of block h. */
    method SetMagic(h: int, used: bool, ghost i: nat)
      requires Threaded() && i < |blocks| && blocks[i].at == h && h !in free
      modifies mem, `blocks
      ensures Threaded() && blocks == old(blocks)[i := Block(old(blocks)[i].at, used)]
      ensures Unchanged(old(mem[..]), mem[..], old(blocks), HDR, end)
    {
      ghost var bs, w := blocks, mem[..];
      FlagTiled(bs, end, i, used, free);
      assert ItemAt(w, bs, end, self, i);
      MagicApart(bs, end, i, free);
      hide Tiled, Listed;
      mem[h] := if used then USED else FREED;
      FlagChain(w, mem[..], bs, end, self, i, used);
      hide Chain;
      RingSame(w, mem[..], free, poolSize);
      blocks := bs[i := Block(bs[i].at, used)];
    }

    /** The search of rt_memheap_alloc: along the free list to the first item that is large enough. */
    method Search(size: nat) returns (header: int, freeSize: int, ghost k: nat, ghost i: nat)
      requires Valid() && size > 0
      ensures freeSize < size ==> !Enough(blocks, end, size)
      ensures freeSize >= size ==> FirstListed(blocks, end, free, size, k, i)
                                   && header == blocks[i].at && freeSize == Room(blocks, HDR, end, i)
    {
      hide Tiled;
      ghost var w, walk := mem[..], Walk(free, poolSize);
      freeSize, k, i := 0, 0, 0;
      assert Linked(w, walk[0], walk[1]);
      header := mem[poolSize + NEXT_FREE];
      while header != poolSize && freeSize < size
        invariant k <= |free| && header == walk[k + 1]
        invariant freeSize >= size ==> k < |free| && i < |blocks| && blocks[i] == Block(free[k], false)
                                       && freeSize == Room(blocks, HDR, end, i)
        invariant AllSmall(blocks, end, free, size, k)
        decreases |free| - k, if freeSize < size then 1 else 0
      {
        i := ListedIndex(free, blocks, k);
        assert ItemAt(w, blocks, end, self, i);
        assert Linked(w, walk[k + 1], walk[k + 2]);
        freeSize := mem[header + NEXT] - header - HDR;
        if freeSize < size {
          SmallOneMore(blocks, end, free, size, k, i);
          header := mem[header + NEXT_FREE];
          k := k + 1;
        }
      }
      if freeSize < size {
        NothingListedFits(blocks, end, free, size);
      }
    }

    /** Takes item x off the free list and clears its link words. */
    method Detach(x: int, ghost k: nat, ghost i: nat)
      requires Threaded() && k < |free| && free[k] == x && i < |blocks| && blocks[i] == Block(free[k], false)
      requires Listed(Without(free, k), blocks)
      modifies mem, `free
      ensures Threaded() && free == Without(old(free), k)
      ensures Unchanged(old(mem[..]), mem[..], blocks, HDR, end)
    {
      hide Tiled, Chain, Ring, Listed, LinkWord, Without, Walk;
      ghost var w, fs := mem[..], free;
      ClearNodes(w, fs, poolSize, blocks, end, k, i);
      Unlink(x, k);
      ghost var v := mem[..];
      mem[x + NEXT_FREE] := NULL;
      mem[x + PREV_FREE] := NULL;
      LinkChain(v, mem[..], blocks, end, self);
      LinkUnchanged(v, mem[..], blocks, end, self);
      UnchangedTwice(w, v, mem[..], blocks, HDR, end);
      RingSame(v, mem[..], free, poolSize);
    }

    /** Splits the found item: its first part becomes used, the rest goes to the front of the list. */
    method TakeSplit(header: int, size: nat, ghost k: nat, ghost i: nat)
      requires Threaded() && k < |free| && i < |blocks| && blocks[i] == Block(free[k], false) && header == free[k]
      requires Room(blocks, HDR, end, i) >= size + HDR + MINIALLOC
      modifies mem, `free, `blocks
      ensures Threaded() && blocks == Carve(old(blocks), HDR, end, i, size, MINIALLOC)
      ensures free == [old(blocks)[i].at + HDR + size] + Without(old(free), k)
      ensures Unchanged(old(mem[..]), mem[..], old(blocks), HDR, end)
    {
      hide Tiled, Chain, Ring, Listed, Unchanged, CutLayout, Carve, Without;
      ghost var bs, fs, w := blocks, free, mem[..];
      TakenOff(w, bs, end, fs, k, i);
      SplitFresh(bs, end, i, size, Without(fs, k));
      CarveIsCutAndFlag(bs, end, i, size);
      CutOff(header, size, k, i);
      ghost var v := mem[..];
      Push(header + size + HDR, i + 1);
      ghost var x := mem[..];
      SetMagic(header, true, i);
      UnchangedTwice(w, v, x, CutLayout(bs, HDR, i, size), HDR, end);
      CutKeepsUsed(w, x, mem[..], bs, HDR, end, i, size);
    }

    /** Splits the found item and takes it off the list. */
    method CutOff(header: int, size: nat, ghost k: nat, ghost i: nat)
      requires Threaded() && k < |free| && i < |blocks| && blocks[i] == Block(free[k], false) && header == free[k]
      requires Room(blocks, HDR, end, i) >= size + HDR
      modifies mem, `free, `blocks
      ensures Threaded() && blocks == CutLayout(old(blocks), HDR, i, size) && free == Without(old(free), k)
      ensures Unchanged(old(mem[..]), mem[..], blocks, HDR, end)
    {
      hide Tiled, Chain, Ring, Listed, Unchanged, CutLayout, Without;
      ghost var bs, fs, w := blocks, free, mem[..];
      TakenOff(w, bs, end, fs, k, i);
      SplitFresh(bs, end, i, size, Without(fs, k));
      CutListed(bs, i, size, Without(fs, k));
      Cut(header, size, i);
      ghost var v := mem[..];
      Detach(header, k, i);
      UnchangedTwice(w, v, mem[..], blocks, HDR, end);
    }

    /** Takes the whole of the found item. */
    method TakeWhole(header: int, size: nat, ghost k: nat, ghost i: nat)
      requires Threaded() && k < |free| && i < |blocks| && blocks[i] == Block(free[k], false) && header == free[k]
      requires Room(blocks, HDR, end, i) < size + HDR + MINIALLOC
      modifies mem, `free, `blocks
      ensures Threaded() && blocks == Carve(old(blocks), HDR, end, i, size, MINIALLOC)
      ensures free == [] + Without(old(free), k)
      ensures Unchanged(old(mem[..]), mem[..], old(blocks), HDR, end)
    {
      hide Tiled, Chain, Ring, Listed, Unchanged, Carve, Without;
      ghost var bs, w := blocks, mem[..];
      TakenOff(w, bs, end, free, k, i);
      CarveIsFlag(bs, end, i, size);
      Detach(header, k, i);
      ghost var v := mem[..];
      SetMagic(header, true, i);
      UnchangedTwice(w, v, mem[..], bs, HDR, end);
    }

    /** The successful part of rt_memheap_alloc, once item k of the free list is found to fit. */
    method Take(header: int, freeSize: int, size: nat, ghost k: nat, ghost i: nat)
      requires Valid() && size >= MINIALLOC && FirstListed(blocks, end, free, size, k, i)
      requires header == blocks[i].at && freeSize == Room(blocks, HDR, end, i)
      modifies mem, this
      ensures Valid() && Carved(old(blocks), blocks, end, old(free), free, size, header + HDR, k, i)
      ensures maxUsedSize == Max(old(maxUsedSize), poolSize - availableSize)
      ensures Unchanged(old(mem[..]), mem[..], old(blocks), HDR, end)
    {
      hide Tiled, Chain, Ring, Exact, Listed, Unchanged, Total, Coalesced, Without, Carve, Carved, FirstListed;
      TakeFacts(mem[..], blocks, end, free, size, k, i);
      TakenAmple(blocks, end, i, size);
      if freeSize >= size + HDR + MINIALLOC {
        TakeSplit(header, size, k, i);
        Charge(size + HDR);
      } else {
        TakeWhole(header, size, k, i);
        Charge(freeSize);
      }
    }

    /** Takes n words off the available size and keeps the peak use. */
    method Charge(n: int)
      modifies `availableSize, `maxUsedSize
      ensures availableSize == old(availableSize) - n
      ensures maxUsedSize == Max(old(maxUsedSize), poolSize - availableSize)
    {
      availableSize := availableSize - n;
      if poolSize - availableSize > maxUsedSize {
        maxUsedSize := poolSize - availableSize;
      }
    }

    /** rt_memheap_alloc. */
    method Alloc(bytes: nat) returns (r: int)
      requires Valid() && bytes <= MAX_REQUEST
      modifies mem, this
      ensures Valid() && Allocated(old(blocks), blocks, end, old(free), free, Want(bytes), r)
      ensures r == NULL ==> mem[..] == old(mem[..]) && unchanged(this)
      ensures r != NULL ==> r !in old(LiveMap()) && r in LiveMap()
                            && LiveMap() == old(LiveMap())[r := LiveMap()[r]]
      ensures r != NULL ==> LiveMap()[r] >= Want(bytes)
      ensures r != NULL ==> bytes <= 4 * LiveMap()[r] < Max(bytes, 12) + 4 * (HDR + MINIALLOC)
      ensures maxUsedSize == Max(old(maxUsedSize), poolSize - availableSize)
      ensures Keeps(old(mem[..]), mem[..], old(LiveMap()))
    {
      hide Exact, Coalesced, Total, Live, Keeps, Carved, Enough, FirstListed;
      KeepsSelf();
      var size := (bytes + 3) / 4;
      if size < MINIALLOC {
        size := MINIALLOC;
      }
      if size < availableSize {
        var header, freeSize;
        ghost var k, i;
        header, freeSize, k, i := Search(size);
        if freeSize >= size {
          r := Grant(header, freeSize, size, k, i);
          return;
        }
      }
      return NULL;
    }

    /** The end of a successful rt_memheap_alloc, in terms of live blocks. */
    method Grant(header: int, freeSize: int, size: nat, ghost k: nat, ghost i: nat) returns (r: int)
      requires Valid() && MINIALLOC <= size < availableSize && FirstListed(blocks, end, free, size, k, i)
      requires header == blocks[i].at && freeSize == Room(blocks, HDR, end, i)
      modifies mem, this
      ensures Valid() && Allocated(old(blocks), blocks, end, old(free), free, size, r)
      ensures r >= HDR && r !in old(LiveMap()) && r in LiveMap() && size <= LiveMap()[r] < size + HDR + MINIALLOC
      ensures LiveMap() == old(LiveMap())[r := LiveMap()[r]]
      ensures maxUsedSize == Max(old(maxUsedSize), poolSize - availableSize)
      ensures Keeps(old(mem[..]), mem[..], old(LiveMap()))
    {
      hide Tiled, Chain, Ring, Exact, Listed, Unchanged, Total, Coalesced, Carved, Enough, FirstListed, Live, Keeps;
      ghost var bs, fs, w := blocks, free, mem[..];
      EnoughFound(bs, end, fs, size, k, i);
      Take(header, freeSize, size, k, i);
      r := header + HDR;
      AllocatedLive(bs, blocks, end, fs, free, size, r);
      UntouchedKeeps(w, mem[..], bs, HDR, end);
    }

    /** rt_memheap_free. */
    method Free(ptr: int)
      requires Valid() && (ptr == NULL || ptr in LiveMap())
      modifies mem, this
      ensures Valid() && maxUsedSize == old(maxUsedSize)
      ensures ptr == NULL ==> mem[..] == old(mem[..]) && unchanged(this)
      ensures ptr != NULL ==> Freed(old(blocks), blocks, old(free), free, ptr) && LiveMap() == old(LiveMap()) - {ptr}
      ensures Keeps(old(mem[..]), mem[..], LiveMap())
    {
      if ptr == NULL {
        KeepsSelf();
        return;
      }
      hide Live, Keeps, Release, Relisted;
      ghost var i := LiveItem(blocks, HDR, end, ptr);
      FreeItem(ptr - HDR, i);
    }

    /** The rest of rt_memheap_free, for the header of a live block. */
    method FreeItem(header: int, ghost i: nat)
      requires Valid() && i < |blocks| && blocks[i].at == header && blocks[i].used
      modifies mem, this
      ensures Valid() && maxUsedSize == old(maxUsedSize) && blocks == Release(old(blocks), i)
      ensures Relisted(Unuse(old(blocks), i), i, old(free), free)
      ensures LiveMap() == old(LiveMap()) - {header + HDR}
      ensures Keeps(old(mem[..]), mem[..], LiveMap())
    {
      hide Chain, Ring, Tiled, Listed, Live, Total, Coalesced, Exact, Unchanged, Merge, Pending, Keeps;
      ghost var bs, w := blocks, mem[..];
      FreeFacts(bs, end, i);
      Unmark(header, i);
      ghost var v := mem[..];
      MergeBoth(header, i);
      ReleaseKeeps(w, v, mem[..], bs, HDR, end, i);
    }

    /** Marks the item free and adds its payload to the available size. */
    method Unmark(header: int, ghost i: nat)
      requires Threaded() && Exact(free, blocks) && i < |blocks| && blocks[i].at == header && blocks[i].used
      modifies mem, `blocks, `availableSize
      ensures Threaded() && blocks == Unuse(old(blocks), i) && Pending(free, blocks, header, true)
      ensures availableSize == old(availableSize) + Room(old(blocks), HDR, end, i)
      ensures Unchanged(old(mem[..]), mem[..], old(blocks), HDR, end)
    {
      hide Chain, Ring, Tiled, Listed, Exact, Unchanged, Pending;
      UnusePending(blocks, end, free, i);
      SetMagic(header, false, i);
      Neighbours(mem[..], blocks, end, self, i);
      availableSize := availableSize + (mem[header + NEXT] - header - HDR);
    }

    /** The freed item merges with its neighbours and, unless the left one took it in, joins the free list. */
    method MergeBoth(freed: int, ghost i: nat)
      requires Threaded() && i < |blocks| && blocks[i].at == freed && !blocks[i].used
               && Pending(free, blocks, freed, true)
      modifies mem, `blocks, `free, `availableSize
      ensures Threaded() && Exact(free, blocks) && blocks == Merge(old(blocks), i)
      ensures Relisted(old(blocks), i, old(free), free)
      ensures availableSize == old(availableSize) + HDR * (|old(blocks)| - |blocks|)
      ensures Unchanged(old(mem[..]), mem[..], old(blocks), HDR, end)
    {
      hide Chain, Ring, Tiled, Listed, Exact, Unchanged, Merge, Pending, MergedForward, MergedBackward, Unlisted;
      ghost var bs, fs, w, j := blocks, free, mem[..], MergeLow(blocks, i);
      MergeStepsBack(bs, i);
      var header, insert := MergeLeft(freed, i);
      ghost var v := mem[..];
      MergeRight(header, insert, j);
      ghost var x, rest := mem[..], free;
      UnchangedSelf(x, blocks, HDR, end);
      if insert {
        Insert(header, j);
      } else {
        PendingSettled(blocks, free, header);
      }
      MergeBothUnchanged(w, v, x, mem[..], bs, HDR, end, i);
      MergeBothRelisted(bs, i, fs, rest, free);
    }

    /** Merge with the previous neighbour. */
    method MergeLeft(freed: int, ghost i: nat) returns (header: int, insert: bool)
      requires Threaded() && i < |blocks| && blocks[i].at == freed && !blocks[i].used
               && Pending(free, blocks, freed, true)
      modifies mem, `blocks, `availableSize
      ensures Threaded() && blocks == MergedBackward(old(blocks), i)
      ensures header == old(blocks)[MergeLow(old(blocks), i)].at && Pending(free, blocks, header, insert)
      ensures availableSize == old(availableSize) + HDR * (i - MergeLow(old(blocks), i))
      ensures insert <==> !(i > 0 && !old(blocks)[i - 1].used)
      ensures Unchanged(old(mem[..]), mem[..], old(blocks), HDR, end)
    {
      hide Chain, Ring, Tiled, Listed, Unchanged;
      Neighbours(mem[..], blocks, end, self, i);
      UnchangedSelf(mem[..], blocks, HDR, end);
      header, insert := freed, true;
      if mem[mem[header + PREV]] != USED {
        availableSize := availableSize + HDR;
        LeftPending(blocks, end, free, i - 1);
        var prev := mem[header + PREV];
        Absorb(prev, header, i - 1);
        header, insert := prev, false;
      }
    }

    /** Merge with the next neighbour. */
    method MergeRight(header: int, insert: bool, ghost j: nat)
      requires Threaded() && j < |blocks| && blocks[j].at == header && !blocks[j].used
               && Pending(free, blocks, header, insert)
      modifies mem, `blocks, `free, `availableSize
      ensures Threaded() && blocks == MergedForward(old(blocks), j) && Pending(free, blocks, header, insert)
      ensures Unlisted(old(blocks), j, old(free), free)
      ensures availableSize == old(availableSize) + HDR * (MergeHigh(old(blocks), j) - j - 1)
      ensures Unchanged(old(mem[..]), mem[..], old(blocks), HDR, end)
    {
      hide Chain, Ring, Tiled, Listed, Unchanged, Pending;
      Neighbours(mem[..], blocks, end, self, j);
      UnchangedSelf(mem[..], blocks, HDR, end);
      var newPtr := mem[header + NEXT];
      if mem[newPtr] != USED {
        availableSize := availableSize + HDR;
        AbsorbNext(header, newPtr, insert, j);
      }
    }

    /** Free block `header` takes over the free block behind it, which leaves the free list. */
    method AbsorbNext(header: int, next: int, insert: bool, ghost j: nat)
      requires Threaded() && j + 1 < |blocks| && blocks[j].at == header && blocks[j + 1].at == next
      requires !blocks[j].used && !blocks[j + 1].used && Pending(free, blocks, header, insert)
      modifies mem, `blocks, `free
      ensures Unlisted(old(blocks), j, old(free), free)
      ensures Threaded() && blocks == Replace(old(blocks), j, j + 2, [old(blocks)[j]])
              && Pending(free, blocks, header, insert)
      ensures Unchanged(old(mem[..]), mem[..], old(blocks), HDR, end)
    {
      hide Chain, Ring, Tiled, Unchanged, Without;
      ghost var bs, fs, w := blocks, free, mem[..];
      ghost var k := NextPlace(w, bs, end, fs, j, header, insert);
      Absorb(header, next, j);
      ghost var v := mem[..];
      Unlink(next, k);
      MergedUnchanged(v, mem[..], bs, HDR, end, j);
      UnchangedTwice(w, v, mem[..], bs, HDR, end);
    }

    /** Completes a release whose insertion is pending. */
    method Insert(header: int, ghost j: nat)
      requires Threaded() && j < |blocks| && blocks[j].at == header && !blocks[j].used
               && Pending(free, blocks, header, true)
      modifies mem, `free
      ensures Threaded() && Exact(free, blocks) && free == [blocks[j].at] + old(free)
      ensures Unchanged(old(mem[..]), mem[..], blocks, HDR, end)
    {
      hide Chain, Ring, Tiled, Unchanged;
      PendingPushed(blocks, free, header);
      Push(header, j);
    }

    /** rt_memheap_realloc when the free item behind can pay for the growth. */
    method Grow(header: int, size: nat, ghost i: nat)
      requires Valid() && i + 1 < |blocks| && blocks[i].at == header && blocks[i].used
      requires GrowsAt(blocks, end, i, size) && size > Room(blocks, HDR, end, i) && size >= MINIALLOC
      modifies mem, this
      ensures Valid() && LiveMap() == old(LiveMap())[header + HDR := size]
      ensures maxUsedSize == Max(old(maxUsedSize), poolSize - availableSize)
      ensures Keeps(old(mem[..]), mem[..], old(LiveMap()))
    {
      hide Chain, Ring, Tiled, Listed, Live, Total, Coalesced, Exact, Unchanged, Tiling.Grow, Keeps;
      ghost var bs, w := blocks, mem[..];
      GrowFacts(bs, end, i, size);
      Neighbours(w, bs, end, self, i);
      Charge(size - (mem[header + NEXT] - header - HDR));
      GrowInto(header, mem[header + NEXT], size, i);
      UntouchedKeeps(w, mem[..], bs, HDR, end);
    }

    /** Item `next` leaves both lists; a smaller free item is built behind the grown block. */
    method GrowInto(header: int, next: int, size: nat, ghost i: nat)
      requires Threaded() && Exact(free, blocks) && i + 1 < |blocks| && blocks[i].at == header && blocks[i].used
      requires blocks[i + 1].at == next && GrowsAt(blocks, end, i, size) && size > Room(blocks, HDR, end, i)
      modifies mem, `blocks, `free
      ensures Threaded() && Exact(free, blocks) && blocks == Tiling.Grow(old(blocks), HDR, i, size)
      ensures Unchanged(old(mem[..]), mem[..], old(blocks), HDR, end)
    {
      hide Chain, Ring, Tiled, Listed, Exact, Unchanged, Tiling.Grow, Without, Pending, CutLayout, Replace, Room;
      ghost var bs, w := blocks, mem[..];
      ghost var k := GrowLists(w, bs, end, free, i, size);
      CutPending(Replace(bs, i, i + 2, [bs[i]]), end, Without(free, k), i, size, NULL);
      Swallow(header, next, i, k);
      ghost var v := mem[..];
      CutInsert(header, size, i);
      GrownUnchanged(v, mem[..], bs, HDR, end, i, size);
      UnchangedTwice(w, v, mem[..], bs, HDR, end);
    }

    /** Item `next` leaves the free list and the block list; the block before it takes its words. */
    method Swallow(header: int, next: int, ghost i: nat, ghost k: nat)
      requires Threaded() && i + 1 < |blocks| && blocks[i].at == header && blocks[i + 1].at == next
      requires k < |free| && free[k] == next && Listed(Without(free, k), blocks)
      requires Listed(Without(free, k), Replace(blocks, i, i + 2, [blocks[i]]))
      modifies mem, `blocks, `free
      ensures Threaded() && blocks == Replace(old(blocks), i, i + 2, [old(blocks)[i]]) && free == Without(old(free), k)
      ensures Unchanged(old(mem[..]), mem[..], old(blocks), HDR, end)
    {
      hide Chain, Ring, Tiled, Listed, Unchanged, Without;
      ghost var bs, w := blocks, mem[..];
      Unlink(next, k);
      ghost var v := mem[..];
      Absorb(header, next, i);
      UnchangedTwice(w, v, mem[..], bs, HDR, end);
    }

    /** Builds a free item behind the first `size` words of a used block and puts it on the free list. */
    method CutInsert(header: int, size: nat, ghost i: nat)
      requires Threaded() && i < |blocks| && blocks[i].at == header && Room(blocks, HDR, end, i) >= size + HDR
      requires Pending(free, CutLayout(blocks, HDR, i, size), header + HDR + size, true)
      modifies mem, `blocks, `free
      ensures Threaded() && Exact(free, blocks) && blocks == CutLayout(old(blocks), HDR, i, size)
      ensures Unchanged(old(mem[..]), mem[..], blocks, HDR, end)
    {
      hide Chain, Ring, Tiled, Listed, Exact, Unchanged, Pending, CutLayout;
      ghost var w := mem[..];
      CutItems(blocks, i, size);
      Cut(header, size, i);
      ghost var v := mem[..];
      Insert(header + HDR + size, i + 1);
      UnchangedTwice(w, v, mem[..], blocks, HDR, end);
    }

    /** rt_memheap_realloc when the words given up can hold an item. */
    method Shrink(header: int, size: nat, ghost i: nat)
      requires Valid() && i < |blocks| && blocks[i].at == header && blocks[i].used
      requires MINIALLOC <= size && size + HDR + MINIALLOC < Room(blocks, HDR, end, i)
      modifies mem, this
      ensures Valid() && maxUsedSize == old(maxUsedSize)
      ensures LiveMap() == old(LiveMap())[header + HDR := size]
      ensures Keeps(old(mem[..]), mem[..], LiveMap())
    {
      hide Chain, Ring, Tiled, Listed, Live, Total, Coalesced, Exact, Unchanged, CutLayout, Trim, Keeps, MergedForward;
      ghost var bs, w := blocks, mem[..];
      ShrinkFacts(bs, end, i, size);
      TrimTail(header, size, i);
      UnchangedSelf(mem[..], CutLayout(bs, HDR, i, size), HDR, end);
      TrimKeeps(w, mem[..], mem[..], bs, HDR, end, i, size);
    }

    /** Cuts the tail off a used block and gives it back. */
    method TrimTail(header: int, size: nat, ghost i: nat)
      requires Threaded() && Exact(free, blocks) && i < |blocks| && blocks[i].at == header && blocks[i].used
      requires size + HDR <= Room(blocks, HDR, end, i)
      modifies mem, `blocks, `free, `availableSize
      ensures Threaded() && Exact(free, blocks) && i + 1 < |blocks|
      ensures var es := CutLayout(old(blocks), HDR, i, size);
              && |es| == |old(blocks)| + 1 && blocks == MergedForward(es, i + 1)
              && availableSize == old(availableSize) + Room(blocks, HDR, end, i + 1)
                                  - (if i + 2 < |es| && !es[i + 2].used then Room(es, HDR, end, i + 2) else 0)
              && Unchanged(old(mem[..]), mem[..], es, HDR, end)
    {
      hide Chain, Ring, Tiled, Listed, Exact, Unchanged, CutLayout, Pending, MergedForward, Room;
      ghost var es, w := CutLayout(blocks, HDR, i, size), mem[..];
      ExactPending(blocks, free, NULL);
      CutPending(blocks, end, free, i, size, NULL);
      SplitFresh(blocks, end, i, size, free);
      Cut(header, size, i);
      ghost var v := mem[..];
      MergeTail(header + size + HDR, i + 1);
      ghost var x := mem[..];
      CreditTail(header + size + HDR, i + 1);
      ForwardThenUnchanged(v, x, mem[..], es, HDR, end, i + 1);
      UnchangedTwice(w, v, mem[..], es, HDR, end);
    }

    /** The tail merges with a free item behind it, whose payload stops counting as available. */
    method MergeTail(newPtr: int, ghost j: nat)
      requires Threaded() && j < |blocks| && blocks[j].at == newPtr && !blocks[j].used
               && Pending(free, blocks, newPtr, true)
      modifies mem, `blocks, `free, `availableSize
      ensures Threaded() && Pending(free, blocks, newPtr, true) && blocks == MergedForward(old(blocks), j)
      ensures j < |blocks| && blocks[j] == old(blocks)[j]
      ensures availableSize == old(availableSize)
                               - if j + 1 < |old(blocks)| && !old(blocks)[j + 1].used
                                 then Room(old(blocks), HDR, end, j + 1) else 0
      ensures Unchanged(old(mem[..]), mem[..], old(blocks), HDR, end)
    {
      hide Chain, Ring, Tiled, Listed, Exact, Unchanged, Pending;
      Neighbours(mem[..], blocks, end, self, j);
      UnchangedSelf(mem[..], blocks, HDR, end);
      if mem[mem[newPtr + NEXT]] != USED {
        Neighbours(mem[..], blocks, end, self, j + 1);
        var freePtr := mem[newPtr + NEXT];
        availableSize := availableSize - (mem[freePtr + NEXT] - freePtr - HDR);
        AbsorbNext(newPtr, freePtr, true, j);
      }
    }

    /** The tail joins the free list and counts as available. */
    method CreditTail(newPtr: int, ghost j: nat)
      requires Threaded() && j < |blocks| && blocks[j].at == newPtr && !blocks[j].used
               && Pending(free, blocks, newPtr, true)
      modifies mem, `free, `availableSize
      ensures Threaded() && Exact(free, blocks)
      ensures availableSize == old(availableSize) + Room(blocks, HDR, end, j)
      ensures Unchanged(old(mem[..]), mem[..], blocks, HDR, end)
    {
      hide Chain, Ring, Tiled, Listed, Exact, Unchanged, Pending;
      Insert(newPtr, j);
      Neighbours(mem[..], blocks, end, self, j);
      availableSize := availableSize + (mem[newPtr + NEXT] - newPtr - HDR);
    }

    /** rt_memcpy of n words between two live blocks, seen from the heap. */
    method CopyBlock(dst: int, src: int, n: nat)
      requires Valid() && dst in LiveMap() && src in LiveMap() && dst != src
      requires n <= LiveMap()[dst] && n <= LiveMap()[src]
      modifies mem
      ensures Valid()
      ensures Copied(old(mem[..]), mem[..], src, dst, n)
      ensures Keeps(old(mem[..]), mem[..], LiveMap() - {dst})
    {
      hide Chain, Ring, Tiled, Listed, Exact, Coalesced, Keeps, Copied, Live, Total;
      ghost var w := mem[..];
      ghost var i := LivePair(blocks, HDR, end, dst, src);
      ChainLength(w, blocks, end, self);
      Memcpy(mem, dst, src, n);
      PayloadLists(w, mem[..], blocks, end, self, i, free);
      CopyKeeps(w, mem[..], blocks, HDR, end, i);
    }

    /** rt_memheap_realloc's last resort: a new block, a copy, and the old block freed. */
    method Move(ptr: int, oldsize: nat, newsize: nat) returns (newPtr: int)
      requires Valid() && 4 * newsize <= MAX_REQUEST && newsize >= MINIALLOC
      requires ptr in LiveMap() && ptr != NULL && LiveMap()[ptr] == oldsize
      modifies mem, this
      ensures Valid() && maxUsedSize >= old(maxUsedSize)
      ensures newPtr == NULL ==> mem[..] == old(mem[..]) && unchanged(this) && !CanAllocate(blocks, end, newsize)
      ensures newPtr != NULL ==> CanAllocate(old(blocks), end, newsize)
      ensures newPtr != NULL ==> Moved(old(LiveMap()), LiveMap(), ptr, newPtr, newsize)
      ensures Keeps(old(mem[..]), mem[..], old(LiveMap()) - {ptr})
      ensures newPtr != NULL ==> Copied(old(mem[..]), mem[..], ptr, newPtr, Min(oldsize, newsize))
    {
      hide Threaded, Exact, Coalesced, Keeps, Copied, Live, Total, CanAllocate, Carved;
      ghost var w, live := mem[..], LiveMap();
      newPtr := Alloc(4 * newsize);
      KeepsFewer(w, mem[..], live, ptr);
      if newPtr != NULL {
        var n := if oldsize < newsize then oldsize else newsize;
        ghost var now, v := LiveMap(), mem[..];
        CopyBlock(newPtr, ptr, n);
        ghost var x := mem[..];
        Free(ptr);
        MoveKeeps(w, v, x, mem[..], live, now, ptr, newPtr, n);
      }
    }

    /** rt_memheap_realloc; resizing a live block is specified where its test for growing in place is sound. */
    method Realloc(ptr: int, newbytes: nat) returns (r: int)
      requires Valid() && newbytes <= MAX_REQUEST && (ptr == NULL || ptr in LiveMap())
      requires ptr == NULL || newbytes <= MAX_RESIZE || !FreeBehind(blocks, ptr)
      modifies mem, this
      ensures Valid() && maxUsedSize >= old(maxUsedSize)
      ensures Reallocated(old(blocks), blocks, end, old(free), free, ptr, newbytes, r)
      ensures r == NULL && newbytes > 0 ==> mem[..] == old(mem[..]) && unchanged(this)
      ensures Keeps(old(mem[..]), mem[..], old(LiveMap()) - {ptr})
      ensures r != NULL && (ptr == NULL || ptr in old(LiveMap())) ==>
                OnlyChanged(old(LiveMap()), LiveMap(), ptr, r) && 4 * LiveMap()[r] >= newbytes
      ensures r != NULL && ptr in old(LiveMap()) ==>
                && 0 <= ptr <= ptr + old(LiveMap())[ptr] <= mem.Length && 0 <= r <= r + LiveMap()[r] <= mem.Length
                && forall q :: ptr <= q < ptr + old(LiveMap())[ptr] && 4 * (q - ptr) < newbytes ==>
                     old(mem[q]) == mem[r + (q - ptr)]
    {
      hide Threaded, Exact, Coalesced, Keeps, Copied, Live, Total, CanAllocate, Carved, Allocated, Reallocated;
      hide Resized, OnlyChanged;
      ghost var bs, w := blocks, mem[..];
      LiveNotNull();
      if ptr in LiveMap() { LiveRange(ptr); }
      r := ReallocWords(ptr, newbytes);
      if r != NULL {
        ReallocatedOwns(bs, blocks, end, old(free), free, ptr, newbytes, r);
        OnlyOwner(Live(bs, HDR, end), LiveMap(), ptr, r);
        LiveRange(r);
      }
      if r != NULL && ptr in Live(bs, HDR, end) {
        CopiedWords(w, mem[..], ptr, r, Carried(bs, HDR, end, ptr, Want(newbytes)));
      }
    }

    /** The steps of rt_memheap_realloc. */
    method ReallocWords(ptr: int, newbytes: nat) returns (r: int)
      requires Valid() && newbytes <= MAX_REQUEST && (ptr == NULL || ptr in LiveMap())
      requires ptr == NULL || newbytes <= MAX_RESIZE || !FreeBehind(blocks, ptr)
      modifies mem, this
      ensures Valid() && maxUsedSize >= old(maxUsedSize) && Tiled(old(blocks), HDR, end) && Coalesced(old(blocks))
      ensures Reallocated(old(blocks), blocks, end, old(free), free, ptr, newbytes, r)
      ensures r == NULL && newbytes > 0 ==> mem[..] == old(mem[..]) && unchanged(this)
      ensures Keeps(old(mem[..]), mem[..], old(LiveMap()) - {ptr})
      ensures r != NULL && ptr in old(LiveMap()) ==>
                Copied(old(mem[..]), mem[..], ptr, r, Carried(old(blocks), HDR, end, ptr, Want(newbytes)))
    {
      hide Chain, Ring, Listed, Exact, Coalesced, Keeps, Copied, Live, Total, CanAllocate, Carved, Allocated, Resized;
      hide Carried, Tiled;
      LiveNotNull();
      if newbytes == 0 {
        Free(ptr);
        return NULL;
      }
      var newsize := (newbytes + 3) / 4;
      if newsize < MINIALLOC {
        newsize := MINIALLOC;
      }
      if ptr == NULL {
        r := Alloc(4 * newsize);
        KeepsFewer(old(mem[..]), mem[..], old(LiveMap()), ptr);
      } else {
        r := ReallocLive(ptr, newsize);
      }
    }

    /** rt_memheap_realloc on a live block and a clamped size. */
    method ReallocLive(ptr: int, newsize: nat) returns (r: int)
      requires Valid() && 4 * newsize <= MAX_REQUEST && newsize >= MINIALLOC && ptr in LiveMap() && ptr != NULL
      requires 4 * newsize <= MAX_RESIZE || !FreeBehind(blocks, ptr)
      modifies mem, this
      ensures Valid() && maxUsedSize >= old(maxUsedSize)
      ensures Resized(old(blocks), blocks, end, ptr, newsize, r)
      ensures r == NULL ==> mem[..] == old(mem[..]) && unchanged(this)
      ensures Keeps(old(mem[..]), mem[..], old(LiveMap()) - {ptr})
      ensures r != NULL ==> Copied(old(mem[..]), mem[..], ptr, r, Carried(old(blocks), HDR, end, ptr, newsize))
    {
      hide Chain, Ring, Tiled, Listed, Exact, Coalesced, Keeps, Copied, Live, Total, CanAllocate, CanGrow;
      ghost var w, live := mem[..], LiveMap();
      ghost var i := LiveItem(blocks, HDR, end, ptr);
      Neighbours(w, blocks, end, self, i);
      var header := ptr - HDR;
      var oldsize := mem[header + NEXT] - header - HDR;
      if newsize > oldsize {
        r := Enlarge(ptr, oldsize, newsize, i);
      } else if newsize + HDR + MINIALLOC >= oldsize {
        KeepsSelf();
        KeepsCopied(w, w, live, ptr, newsize);
        r := ptr;
      } else {
        Shrink(header, newsize, i);
        ShrinkKeeps(w, mem[..], live, ptr, newsize);
        r := ptr;
      }
    }

    /** rt_memheap_realloc to a larger size: in place if the item behind allows it, else by moving. */
    method Enlarge(ptr: int, oldsize: nat, newsize: nat, ghost i: nat) returns (r: int)
      requires Valid() && 4 * newsize <= MAX_REQUEST && newsize >= MINIALLOC && ptr in LiveMap() && ptr != NULL
      requires 4 * newsize <= MAX_RESIZE || !FreeBehind(blocks, ptr)
      requires i < |blocks| && blocks[i].used && blocks[i].at + HDR == ptr
               && newsize > oldsize == LiveMap()[ptr] == Room(blocks, HDR, end, i)
      modifies mem, this
      ensures Valid() && maxUsedSize >= old(maxUsedSize)
      ensures Resized(old(blocks), blocks, end, ptr, newsize, r)
      ensures r == NULL ==> mem[..] == old(mem[..]) && unchanged(this)
      ensures Keeps(old(mem[..]), mem[..], old(LiveMap()) - {ptr})
      ensures r != NULL ==> Copied(old(mem[..]), mem[..], ptr, r, oldsize)
    {
      hide Chain, Ring, Tiled, Listed, Exact, Coalesced, Keeps, Copied, Live, Total, CanAllocate, CanGrow;
      ghost var w, live := mem[..], LiveMap();
      Neighbours(w, blocks, end, self, i);
      GrowsIff(blocks, end, i, newsize);
      var header := ptr - HDR;
      var nextPtr := mem[header + NEXT];
      if mem[nextPtr] != USED {
        Neighbours(w, blocks, end, self, i + 1);
        var nextsize := mem[nextPtr + NEXT] - nextPtr - HDR;
        RoomsInside(blocks, end, i);
        BlockAmple(blocks, end, i);
        TestIff(nextsize, oldsize, newsize);
        if InPlaceTest(nextsize, oldsize, newsize) {
          Grow(header, newsize, i);
          KeepsCopied(w, mem[..], live, ptr, oldsize);
          return ptr;
        }
      }
      r := Move(ptr, oldsize, newsize);
    }

    lemma KeepsSelf()
      requires Valid()
      ensures Keeps(mem[..], mem[..], LiveMap()) && forall p :: Keeps(mem[..], mem[..], LiveMap() - {p})
    {
      UntouchedKeeps(mem[..], mem[..], blocks, HDR, end);
    }

    /** The payload of a live block lies in the pool, in front of the tail. */
    lemma LiveRange(r: int)
      requires Valid() && r in LiveMap()
      ensures 0 < r <= r + LiveMap()[r] <= end < mem.Length
    {
      hide Chain, Ring, Live, Total, Coalesced, Listed, Exact;
      var i := LiveItem(blocks, HDR, end, r);
      BlockInside(blocks, end, i);
    }

    lemma LiveNotNull()
      requires Valid()
      ensures NULL !in LiveMap()
    {
      if NULL in LiveMap() {
        var i := LiveBlock(blocks, HDR, end, NULL);
      }
    }
  }
}
