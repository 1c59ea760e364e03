/** The small-memory heap of mem.c: headers inside one buffer, linked by offsets.
    Offsets and sizes count words of RT_ALIGN_SIZE = 4 bytes; every quantity the code compares is a
    multiple of 4 once requests are aligned, so word arithmetic is exact.  A header takes three words:
    the magic number with the use flag in the upper half, `next` and `prev`. */
module SmallHeap {
  import opened Contents
  import opened Order
  import opened Tiling

  const HDR: nat := 3          // SIZEOF_STRUCT_MEM
  const MIN: nat := 3          // MIN_SIZE_ALIGNED
  const FREE := 0x1ea0         // HEAP_MAGIC, used = 0
  const USED := 0x1_1ea0       // HEAP_MAGIC, used = 1
  const NULL := -1
  const MAX_REQUEST := 0xFFFF_FFFC  // RT_ALIGN does not wrap up to here

  /** RT_ALIGN, in words. */
  function Align(bytes: nat): (words: nat)
    ensures bytes <= 4 * words < bytes + 4
  {
    (bytes + 3) / 4
  }

  /** Words rt_malloc looks for. */
  function Want(bytes: nat): (words: nat)
    ensures Max(bytes, 12) <= 4 * words < Max(bytes, 12) + 4
  {
    if Align(bytes) < MIN then MIN else Align(bytes)
  }

  ghost function Tag(used: bool): int {
    if used then USED else FREE
  }

  ghost function Prev(bs: seq<Block>, i: nat): nat
    requires i < |bs|
  {
    if i == 0 then 0 else bs[i - 1].at
  }

  /** The three header words of block i. */
  ghost predicate HeaderAt(w: seq<int>, bs: seq<Block>, end: nat, i: nat)
    requires i < |bs|
  {
    && bs[i].at + 2 < |w|
    && w[bs[i].at] == Tag(bs[i].used)
    && w[bs[i].at + 1] == Next(bs, end, i)
    && w[bs[i].at + 2] == Prev(bs, i)
  }

  /** The words of the buffer spell out layout `bs`.  The sentinel's `prev` is never relied on. */
  ghost predicate Headers(w: seq<int>, bs: seq<Block>, end: nat) {
    && |w| == end + HDR
    && Tiled(bs, HDR, end)
    && (forall i :: 0 <= i < |bs| ==> HeaderAt(w, bs, end, i))
    && w[end] == USED
    && w[end + 1] == end
  }

  /** The lowest free block, or the sentinel when every block is used. */
  ghost predicate LowestFree(bs: seq<Block>, end: nat, low: nat) {
    && (low == end || Block(low, false) in bs)
    && (forall b :: b in bs && !b.used ==> low <= b.at)
  }

  // ----- first fit -----

  /** Block i can serve `want` words.  The scan stops at offsets of `mem_size_aligned - size` and above. */
  ghost predicate Fits(bs: seq<Block>, end: nat, want: nat, i: nat) {
    && i < |bs|
    && !bs[i].used
    && Room(bs, HDR, end, i) >= want
    && bs[i].at + HDR + want < end
  }

  ghost predicate FirstFit(bs: seq<Block>, end: nat, want: nat, i: nat) {
    && Fits(bs, end, want, i)
    && forall j :: 0 <= j < i ==> !Fits(bs, end, want, j)
  }

  ghost predicate CanFit(bs: seq<Block>, end: nat, want: nat) {
    exists i :: Fits(bs, end, want, i)
  }

  /** Outcome of rt_malloc: the lowest fitting block is carved, or nothing fits and nothing happens. */
  ghost predicate Allocated(bs: seq<Block>, ds: seq<Block>, end: nat, want: nat, r: int) {
    if r == NULL then
      ds == bs && !CanFit(bs, end, want)
    else
      exists i: nat :: FirstFit(bs, end, want, i) && r == bs[i].at + HDR && ds == Carve(bs, HDR, end, i, want, MIN)
  }

  /** A successful allocation adds one live block of at least the wanted size at a fresh address. */
  lemma AllocatedLive(bs: seq<Block>, ds: seq<Block>, end: nat, want: nat, r: int)
    requires Tiled(bs, HDR, end) && Coalesced(bs) && Allocated(bs, ds, end, want, r) && r != NULL
    ensures Tiled(ds, HDR, end) && Coalesced(ds)
    ensures r !in Live(bs, HDR, end) && r in Live(ds, HDR, end)
    ensures want <= Live(ds, HDR, end)[r] < want + HDR + MIN
    ensures Live(ds, HDR, end) == Live(bs, HDR, end)[r := Live(ds, HDR, end)[r]]
  {
    var i: nat :| FirstFit(bs, end, want, i) && r == bs[i].at + HDR && ds == Carve(bs, HDR, end, i, want, MIN);
    CarveTiled(bs, HDR, end, i, want, MIN);
    CarveLive(bs, HDR, end, i, want, MIN);
  }

  /** The strict bound of the scan refuses exactly one kind of block that would fit:
      the last one, when its payload is the wanted size to the word. */
  lemma ScanRefusesExactLastFit(bs: seq<Block>, end: nat, want: nat, i: nat)
    requires Tiled(bs, HDR, end) && i < |bs| && !bs[i].used && Room(bs, HDR, end, i) >= want
    ensures Fits(bs, end, want, i) <==> !(i == |bs| - 1 && Room(bs, HDR, end, i) == want)
  {
    if i < |bs| - 1 {
      assert bs[i + 1].at + HDR <= end;
    }
  }

  /** So a fresh heap cannot hand out its whole payload although it is free. */
  lemma FreshHeapRefusesItsWholeSize(size: nat)
    requires size >= MIN
    ensures Allocated([Block(0, false)], [Block(0, false)], size + HDR, size, NULL)
    ensures Room([Block(0, false)], HDR, size + HDR, 0) == size
  {
  }

  // ----- header updates, as facts about buffers -----

  /** The header of block k survives writes to the headers of other blocks. */
  lemma HeaderApart(w: seq<int>, bs: seq<Block>, end: nat, i: nat, k: nat)
    requires Headers(w, bs, end) && i < |bs| && k < |bs| && i != k
    ensures bs[k].at + 2 < bs[i].at || bs[i].at + 2 < bs[k].at
    ensures HeaderAt(w, bs, end, k) && bs[k].at + 2 < end
  {
  }

  /** Setting the flag word of block i. */
  lemma FlagHeaders(w: seq<int>, v: seq<int>, bs: seq<Block>, end: nat, i: nat, used: bool)
    requires Headers(w, bs, end) && i < |bs|
    requires SameBut(w, v, bs[i].at, bs[i].at) && v[bs[i].at] == Tag(used)
    ensures Headers(v, bs[i := Block(bs[i].at, used)], end)
  {
    var ds := bs[i := Block(bs[i].at, used)];
    forall k | 0 <= k < |ds| ensures HeaderAt(v, ds, end, k) {
      assert HeaderAt(w, bs, end, k);
      if k != i { HeaderApart(w, bs, end, i, k); }
    }
  }

  /** Block i takes over block i + 1: its `next` and the follower's `prev` are rewritten. */
  ghost predicate Absorbs(w: seq<int>, v: seq<int>, bs: seq<Block>, end: nat, i: nat)
    requires i + 1 < |bs|
  {
    var stop := Next(bs, end, i + 1);
    && SameBut(w, v, bs[i].at + 1, stop + 2)
    && stop + 2 < |v| && bs[i].at + 1 < |v|
    && v[bs[i].at + 1] == stop && v[stop + 2] == bs[i].at
  }

  /** What absorbing the block behind reads, and the two words it writes. */
  lemma Behind(w: seq<int>, bs: seq<Block>, end: nat, i: nat)
    requires Headers(w, bs, end) && i + 1 < |bs|
    ensures var stop := Next(bs, end, i + 1);
            && bs[i].at + 1 < bs[i + 1].at && bs[i + 1].at + 2 < stop && stop + 2 < |w| && w[bs[i + 1].at + 1] == stop
  {
    assert HeaderAt(w, bs, end, i) && HeaderAt(w, bs, end, i + 1);
  }

  lemma AbsorbHeader(w: seq<int>, v: seq<int>, bs: seq<Block>, end: nat, i: nat, j: nat)
    requires Headers(w, bs, end) && i + 1 < |bs| && Absorbs(w, v, bs, end, i) && j < |bs| && j != i + 1
    ensures bs[j].at + 2 < |v| && v[bs[j].at] == Tag(bs[j].used)
    ensures v[bs[j].at + 1] == if j == i then Next(bs, end, i + 1) else Next(bs, end, j)
    ensures v[bs[j].at + 2] == if j == i + 2 then bs[i].at else Prev(bs, j)
  {
    assert HeaderAt(w, bs, end, j);
    if j != i { HeaderApart(w, bs, end, i, j); }
    if i + 2 < |bs| && j != i + 2 { HeaderApart(w, bs, end, i + 2, j); }
  }

  lemma AbsorbedAt(v: seq<int>, bs: seq<Block>, end: nat, i: nat, k: nat, j: nat)
    requires i + 1 < |bs| && k + 1 < |bs| && j == if k > i then k + 1 else k
    requires bs[j].at + 2 < |v| && v[bs[j].at] == Tag(bs[j].used)
    requires v[bs[j].at + 1] == if j == i then Next(bs, end, i + 1) else Next(bs, end, j)
    requires v[bs[j].at + 2] == if j == i + 2 then bs[i].at else Prev(bs, j)
    ensures HeaderAt(v, Replace(bs, i, i + 2, [bs[i]]), end, k)
  {
    hide Replace;
    AbsorbIndex(bs, i, k);
    if k + 2 < |bs| { AbsorbIndex(bs, i, k + 1); }
    if k > 0 { AbsorbIndex(bs, i, k - 1); }
  }

  lemma AbsorbHeaders(w: seq<int>, v: seq<int>, bs: seq<Block>, end: nat, i: nat)
    requires Headers(w, bs, end) && i + 1 < |bs| && Absorbs(w, v, bs, end, i)
    ensures Headers(v, Replace(bs, i, i + 2, [bs[i]]), end) && Tiled(Replace(bs, i, i + 2, [bs[i]]), HDR, end)
  {
    var ds := Replace(bs, i, i + 2, [bs[i]]);
    ReplaceTiled(bs, HDR, end, i, i + 2, [bs[i]]);
    forall k | 0 <= k < |ds| ensures HeaderAt(v, ds, end, k) {
      var j := if k > i then k + 1 else k;
      AbsorbHeader(w, v, bs, end, i, j);
      AbsorbedAt(v, bs, end, i, k, j);
    }
    HeaderApart(w, bs, end, i, i + 1);
  }

  lemma AbsorbUnchanged(w: seq<int>, v: seq<int>, bs: seq<Block>, end: nat, i: nat)
    requires Headers(w, bs, end) && i + 1 < |bs| && !bs[i].used && !bs[i + 1].used && Absorbs(w, v, bs, end, i)
    ensures Unchanged(w, v, bs, HDR, end)
  {
    forall k, q | 0 <= k < |bs| && bs[k].used && bs[k].at + HDR <= q < Next(bs, end, k) && q < |w|
      ensures w[q] == v[q]
    {
      HeaderApart(w, bs, end, i, k);
      if i + 2 < |bs| && k != i + 2 { HeaderApart(w, bs, end, i + 2, k); }
    }
  }

  /** The lowest free block, were block `a` not yet counted as free. */
  ghost predicate LowestBut(bs: seq<Block>, end: nat, low: nat, a: int) {
    && (low == end || Block(low, false) in bs)
    && (forall b :: b in bs && !b.used && b.at != a ==> low <= b.at)
  }

  lemma AbsorbLowest(bs: seq<Block>, end: nat, i: nat, low: nat)
    requires Tiled(bs, HDR, end) && i + 1 < |bs| && !bs[i].used && !bs[i + 1].used
    requires LowestBut(bs, end, low, bs[i].at) && (low <= bs[i].at || low == bs[i + 1].at)
    ensures LowestFree(Replace(bs, i, i + 2, [bs[i]]), end, if low == bs[i + 1].at then bs[i].at else low)
  {
    var ds := Replace(bs, i, i + 2, [bs[i]]);
    assert ds[i] == bs[i] && bs[i] in ds;
    if low != end && low != bs[i + 1].at {
      var k :| 0 <= k < |bs| && bs[k] == Block(low, false);
      assert ds[if k > i then k - 1 else k] == bs[k];
    }
    assert forall b :: b in ds ==> b in bs;
  }

  /** plug_holes never finds lfree at the block behind the free block it is called for: that branch is dead. */
  lemma LfreeNotBehind(bs: seq<Block>, end: nat, low: nat, i: nat)
    requires Tiled(bs, HDR, end) && LowestFree(bs, end, low) && i < |bs| && !bs[i].used
    ensures low <= bs[i].at < Next(bs, end, i)
  {
    assert bs[i] in bs;
  }

  /** What the two neighbour tests of plug_holes find out. */
  lemma Neighbours(w: seq<int>, bs: seq<Block>, end: nat, i: nat)
    requires Headers(w, bs, end) && i < |bs|
    ensures var at, next, prev := bs[i].at, Next(bs, end, i), Prev(bs, i);
            && w[at + 1] == next && w[at + 2] == prev && at < next <= end && prev <= at
            && (w[next] == FREE && next != end <==> i + 1 < |bs| && !bs[i + 1].used)
            && (w[prev] == FREE && prev != at <==> i > 0 && !bs[i - 1].used)
  {
    assert HeaderAt(w, bs, end, i);
    if i + 1 < |bs| { assert HeaderAt(w, bs, end, i + 1); }
    if i > 0 { assert HeaderAt(w, bs, end, i - 1); }
  }

  ghost predicate Cuts(w: seq<int>, v: seq<int>, bs: seq<Block>, end: nat, i: nat, size: nat)
    requires i < |bs|
  {
    var at, cut, stop := bs[i].at, bs[i].at + HDR + size, Next(bs, end, i);
    && |w| == |v|
    && (forall q :: 0 <= q < |w| && q != at + 1 && !(cut <= q <= cut + 2) && q != stop + 2 ==> w[q] == v[q])
    && cut + HDR <= stop && stop + 2 < |v|
    && v[at + 1] == cut
    && v[cut] == FREE && v[cut + 1] == stop && v[cut + 2] == at
    && (stop != end ==> v[stop + 2] == cut)
  }

  lemma CutHeader(w: seq<int>, v: seq<int>, bs: seq<Block>, end: nat, i: nat, size: nat, j: nat)
    requires Headers(w, bs, end) && i < |bs| && Cuts(w, v, bs, end, i, size) && j < |bs|
    ensures bs[j].at + 2 < |v| && v[bs[j].at] == Tag(bs[j].used)
    ensures v[bs[j].at + 1] == if j == i then bs[i].at + HDR + size else Next(bs, end, j)
    ensures v[bs[j].at + 2] == if j == i + 1 then bs[i].at + HDR + size else Prev(bs, j)
  {
    assert HeaderAt(w, bs, end, j);
    if j != i { HeaderApart(w, bs, end, i, j); }
    if i + 1 < |bs| && j != i + 1 { HeaderApart(w, bs, end, i + 1, j); }
  }

  lemma CutAt(v: seq<int>, bs: seq<Block>, end: nat, i: nat, size: nat, k: nat, j: nat)
    requires i < |bs| && k <= |bs| && k != i + 1 && j == if k > i then k - 1 else k
    requires bs[j].at + 2 < |v| && v[bs[j].at] == Tag(bs[j].used)
    requires v[bs[j].at + 1] == if j == i then bs[i].at + HDR + size else Next(bs, end, j)
    requires v[bs[j].at + 2] == if j == i + 1 then bs[i].at + HDR + size else Prev(bs, j)
    ensures HeaderAt(v, CutLayout(bs, HDR, i, size), end, k)
  {
    hide CutLayout;
    CutIndex(bs, HDR, i, size, k);
    if k < |bs| { CutIndex(bs, HDR, i, size, k + 1); }
    if k > 0 { CutIndex(bs, HDR, i, size, k - 1); }
  }

  lemma CutHeaders(w: seq<int>, v: seq<int>, bs: seq<Block>, end: nat, i: nat, size: nat)
    requires Headers(w, bs, end) && i < |bs| && Cuts(w, v, bs, end, i, size)
    ensures Headers(v, CutLayout(bs, HDR, i, size), end) && Tiled(CutLayout(bs, HDR, i, size), HDR, end)
  {
    hide Cuts, CutLayout, Tiled, HeaderAt;
    var ds := CutLayout(bs, HDR, i, size);
    CutEnds(w, v, bs, end, i, size);
    CutIndex(bs, HDR, i, size, 0);
    forall k | 0 <= k < |ds| ensures HeaderAt(v, ds, end, k) {
      if k != i + 1 {
        var j := if k > i then k - 1 else k;
        CutHeader(w, v, bs, end, i, size, j);
        CutAt(v, bs, end, i, size, k, j);
      }
    }
  }

  lemma CutEnds(w: seq<int>, v: seq<int>, bs: seq<Block>, end: nat, i: nat, size: nat)
    requires Headers(w, bs, end) && i < |bs| && Cuts(w, v, bs, end, i, size)
    ensures Tiled(CutLayout(bs, HDR, i, size), HDR, end) && |v| == end + HDR && v[end] == USED && v[end + 1] == end
    ensures HeaderAt(v, CutLayout(bs, HDR, i, size), end, i + 1)
  {
    ReplaceTiled(bs, HDR, end, i, i + 1, [bs[i], Block(bs[i].at + HDR + size, false)]);
    CutIndex(bs, HDR, i, size, i);
    CutIndex(bs, HDR, i, size, i + 1);
    if i + 1 < |bs| { CutIndex(bs, HDR, i, size, i + 2); }
  }

  lemma CutUnchanged(w: seq<int>, v: seq<int>, bs: seq<Block>, end: nat, i: nat, size: nat)
    requires Headers(w, bs, end) && i < |bs| && Cuts(w, v, bs, end, i, size)
    ensures Unchanged(w, v, CutLayout(bs, HDR, i, size), HDR, end)
  {
    var ds := CutLayout(bs, HDR, i, size);
    forall k, q | 0 <= k < |ds| && ds[k].used && ds[k].at + HDR <= q < Next(ds, end, k) && q < |w|
      ensures w[q] == v[q]
    {
      if k != i {
        var j := if k > i then k - 1 else k;
        assert ds[k] == bs[j] && Next(ds, end, k) == Next(bs, end, j);
        HeaderApart(w, bs, end, i, j);
        if i + 1 < |bs| && j != i + 1 { HeaderApart(w, bs, end, i + 1, j); }
      }
    }
  }

  lemma FlagUnchanged(w: seq<int>, v: seq<int>, bs: seq<Block>, end: nat, i: nat)
    requires Headers(w, bs, end) && i < |bs| && SameBut(w, v, bs[i].at, bs[i].at)
    ensures Unchanged(w, v, bs, HDR, end)
  {
    forall k, q | 0 <= k < |bs| && bs[k].used && bs[k].at + HDR <= q < Next(bs, end, k) && q < |w|
      ensures w[q] == v[q]
    {
      if k != i { HeaderApart(w, bs, end, i, k); }
    }
  }

  /** Blocks of a carved layout are blocks of the old one, but for block i and what is cut behind it. */
  lemma CarveBlocks(bs: seq<Block>, end: nat, i: nat, size: nat, j: nat)
    requires i < |bs|
    requires j < |Carve(bs, HDR, end, i, size, MIN)|
    ensures var ds := Carve(bs, HDR, end, i, size, MIN);
            && ds[i] == Block(bs[i].at, true)
            && (j < i ==> ds[j] == bs[j])
            && (j > i ==> ds[j].at > bs[i].at || ds[j] in bs)
  {
    var ds := Carve(bs, HDR, end, i, size, MIN);
    if j > i {
      if |ds| > |bs| {
        if j > i + 1 { assert ds[j] == bs[j - 1]; }
      } else {
        assert ds[j] == bs[j];
      }
    }
  }

  lemma CarveLowest(bs: seq<Block>, end: nat, i: nat, size: nat, low: nat)
    requires Tiled(bs, HDR, end) && LowestFree(bs, end, low) && i < |bs| && !bs[i].used
    ensures var ds := Carve(bs, HDR, end, i, size, MIN);
            && i < |ds| && ds[i] == Block(bs[i].at, true)
            && (low == bs[i].at ==> forall j :: 0 <= j < i ==> ds[j].used)
            && (low != bs[i].at ==> LowestFree(ds, end, low))
  {
    var ds := Carve(bs, HDR, end, i, size, MIN);
    assert bs[i] in bs;
    CarveBlocks(bs, end, i, size, i);
    forall j | 0 <= j < i ensures ds[j] == bs[j] && (ds[j].used || low <= ds[j].at) {
      CarveBlocks(bs, end, i, size, j);
      assert bs[j] in bs;
    }
    if low != bs[i].at {
      var k :| 0 <= k < |bs| && bs[k] == Block(low, false);
      assert ds[k] == Block(low, false);
      forall j | 0 <= j < |ds| && !ds[j].used ensures low <= ds[j].at {
        CarveBlocks(bs, end, i, size, j);
      }
    }
  }

  lemma UnuseLowest(bs: seq<Block>, end: nat, i: nat, low: nat)
    requires LowestFree(bs, end, low) && i < |bs| && bs[i].used && bs[i].at < end && (low == end || low < end)
    ensures LowestFree(Unuse(bs, i), end, if bs[i].at < low then bs[i].at else low)
  {
    var ds := Unuse(bs, i);
    assert ds[i] in ds;
    if low != end {
      var k :| 0 <= k < |bs| && bs[k] == Block(low, false);
      assert ds[k] == bs[k];
    }
    forall j | 0 <= j < |ds| && j != i && !ds[j].used ensures low <= ds[j].at {
      assert ds[j] == bs[j] && bs[j] in bs;
    }
  }

  lemma CutLowest(bs: seq<Block>, end: nat, i: nat, size: nat, low: nat)
    requires Tiled(bs, HDR, end) && LowestFree(bs, end, low) && i < |bs| && bs[i].used
             && size + HDR <= Room(bs, HDR, end, i)
    ensures var cut := bs[i].at + HDR + size;
            LowestFree(CutLayout(bs, HDR, i, size), end, if cut < low then cut else low)
  {
    var ds, cut := CutLayout(bs, HDR, i, size), bs[i].at + HDR + size;
    assert Next(bs, end, i) <= end;
    hide Tiled;
    assert ds[i + 1] == Block(cut, false);
    if low != end {
      var k :| 0 <= k < |bs| && bs[k] == Block(low, false);
      assert ds[if k > i then k + 1 else k] == bs[k];
    }
    forall j | 0 <= j < |ds| && j != i + 1 && !ds[j].used ensures low <= ds[j].at {
      assert ds[j] == bs[if j > i then j - 1 else j] && ds[j] in bs;
    }
  }

  /** Writing into the payload of one block leaves all headers. */
  lemma PayloadHeaders(w: seq<int>, v: seq<int>, bs: seq<Block>, end: nat, i: nat)
    requires Headers(w, bs, end) && i < |bs| && |w| == |v|
    requires forall q :: 0 <= q < |w| && !(bs[i].at + HDR <= q < Next(bs, end, i)) ==> w[q] == v[q]
    ensures Headers(v, bs, end)
  {
    forall k | 0 <= k < |bs| ensures HeaderAt(v, bs, end, k) {
      assert HeaderAt(w, bs, end, k);
      if i + 1 < |bs| && k != i + 1 { HeaderApart(w, bs, end, i + 1, k); }
    }
  }

  lemma NoFitAbove(bs: seq<Block>, end: nat, want: nat, i: nat)
    requires Tiled(bs, HDR, end) && i <= |bs| && (i < |bs| ==> bs[i].at + HDR + want >= end)
    requires forall j :: 0 <= j < i ==> !Fits(bs, end, want, j)
    ensures forall j :: !Fits(bs, end, want, j)
  {
  }

  /** Outcome of rt_free on a live block. */
  ghost predicate Freed(bs: seq<Block>, ds: seq<Block>, rmem: int) {
    exists i: nat :: i < |bs| && bs[i].used && bs[i].at + HDR == rmem && ds == Release(bs, i)
  }

  // ----- reallocation -----

  /** Outcome of rt_realloc for `newsize` aligned words. */
  ghost predicate Reallocated(bs: seq<Block>, ds: seq<Block>, end: nat, rmem: int, newsize: nat, r: int) {
    var live, now := Live(bs, HDR, end), Live(ds, HDR, end);
    if newsize == 0 then
      r == NULL && now == live - {rmem}
    else if newsize > end - HDR then
      r == NULL && ds == bs
    else if rmem == NULL then
      Allocated(bs, ds, end, Want(4 * newsize), r)
    else if rmem !in live || StaysAsIs(live[rmem], newsize) then
      r == rmem && ds == bs
    else if ShrinksInPlace(live[rmem], newsize) then
      r == rmem && now == live[rmem := newsize]
    else if r == NULL then
      ds == bs && !CanFit(bs, end, Want(4 * newsize))
    else
      CanFit(bs, end, Want(4 * newsize)) && Moved(live, now, rmem, r, Want(4 * newsize))
  }

  predicate StaysAsIs(size: int, newsize: nat) {
    newsize == size
  }

  predicate ShrinksInPlace(size: int, newsize: nat) {
    newsize + HDR + MIN < size
  }

  /** When giving up words can fail: rt_realloc on a live block with a smaller, nonzero size returns
      null exactly if the words given up cannot hold a block and no other block fits. */
  lemma ShrinkFailsIff(bs: seq<Block>, ds: seq<Block>, end: nat, rmem: int, newsize: nat, r: int)
    requires Tiled(bs, HDR, end) && rmem in Live(bs, HDR, end) && 0 < newsize < Live(bs, HDR, end)[rmem]
    requires Reallocated(bs, ds, end, rmem, newsize, r)
    ensures r == NULL <==> newsize + HDR + MIN >= Live(bs, HDR, end)[rmem] && !CanFit(bs, end, Want(4 * newsize))
  {
    var k := LiveBlock(bs, HDR, end, rmem);
  }

  /** Whichever way rt_realloc takes, the block it returns is live, large enough, and the only one to change. */
  lemma ReallocatedOwns(bs: seq<Block>, ds: seq<Block>, end: nat, rmem: int, newsize: nat, r: int)
    requires Tiled(bs, HDR, end) && Coalesced(bs) && NULL !in Live(bs, HDR, end)
    requires Reallocated(bs, ds, end, rmem, newsize, r)
    ensures r != NULL && (rmem == NULL || rmem in Live(bs, HDR, end)) ==>
              OnlyChanged(Live(bs, HDR, end), Live(ds, HDR, end), rmem, r) && Live(ds, HDR, end)[r] >= newsize
  {
    hide Tiled, Coalesced, Live, Allocated, CanFit;
    var live, now := Live(bs, HDR, end), Live(ds, HDR, end);
    if r != NULL && rmem == NULL {
      AllocatedLive(bs, ds, end, Want(4 * newsize), r);
      assert live - {rmem} == live;
    } else if r == rmem && rmem in live {
      assert (live - {rmem})[r := now[r]] == live[r := now[r]];
      assert ds == bs ==> now == live[r := now[r]];
    } else if r != NULL && rmem in live {
      assert (live - {rmem})[r := now[r]] == live[r := now[r]] - {rmem};
    }
  }

  /** A heap with a payload of 10 words hands out all of it for 9 words, the tail being too short to split off; asking
      for 9 words again then gives null. */
  lemma ShrinkFails()
    ensures var bs, ds := [Block(0, false)], [Block(0, true)];
            && Allocated(bs, ds, 13, 9, HDR) && Live(ds, HDR, 13) == map[HDR := 10]
            && Reallocated(ds, ds, 13, HDR, 9, NULL)
  {
    LiveOne(Block(0, true), HDR, 13);
    assert FirstFit([Block(0, false)], 13, 9, 0);
  }

  // ----- aligned allocation -----

  predicate PowerOfTwo(n: nat) {
    n == 1 || (n > 1 && n % 2 == 0 && PowerOfTwo(n / 2))
  }

  ghost predicate Multiple(x: int, a: nat) {
    exists k: nat :: x == k * a
  }

  /** Where rt_malloc_align puts the block: the next multiple of the alignment behind x. */
  lemma NextMultiple(x: nat, a: nat)
    requires a > 0
    ensures Multiple(if x % a == 0 then x + a else x + a - x % a, a)
  {
    var q := x / a;
    assert x == q * a + x % a;
    assert x + a - x % a == (q + 1) * a;
  }

  lemma SpanInside(bs: seq<Block>, end: nat, i: nat)
    requires Tiled(bs, HDR, end) && i < |bs|
    ensures bs[i].at + HDR <= Next(bs, end, i) <= end
  {
  }

  lemma KeepsTwice(w: seq<int>, v: seq<int>, x: seq<int>, live: map<int, int>, now: map<int, int>, r: int)
    requires Keeps(w, v, live) && r !in live && r in now && now == live[r := now[r]] && Keeps(v, x, now - {r})
    ensures Keeps(w, x, live)
  {
    forall p | p in live ensures p in now - {r} && (now - {r})[p] == live[p] {
    }
  }

  class Heap {
    const mem: array<int>            // the words from heap_ptr on
    const memSizeAligned: nat
    const heapEnd: nat               // offset of the sentinel
    var lfree: nat
    var usedMem: nat
    var maxMem: nat
    ghost var blocks: seq<Block>

    /** The buffer holds the layout: what holds between the steps of an operation. */
    ghost predicate Linked()
      reads this, mem
    {
      && heapEnd == memSizeAligned + HDR
      && mem.Length == heapEnd + HDR
      && Tiled(blocks, HDR, heapEnd)
      && Headers(mem[..], blocks, heapEnd)
    }

    ghost predicate Sound()
      reads this, mem
    {
      Linked() && LowestFree(blocks, heapEnd, lfree)
    }

    ghost predicate Valid()
      reads this, mem
    {
      && Sound()
      && Coalesced(blocks)
      && usedMem == Total(blocks, heapEnd, true, 0)
      && usedMem <= maxMem
      && Positive(LiveMap())
    }

    ghost function LiveMap(): map<int, int>
      reads this
    {
      Live(blocks, HDR, heapEnd)
    }

    constructor (msa: nat)
      ensures Valid() && memSizeAligned == msa && blocks == [Block(0, false)] && usedMem == 0
      ensures LiveMap() == map[] && fresh(mem)
    {
      memSizeAligned := msa;
      heapEnd := msa + HDR;
      var words := new int[msa + 2 * HDR];
      words[0], words[1], words[2] := FREE, msa + HDR, 0;
      words[msa + HDR], words[msa + HDR + 1], words[msa + HDR + 2] := USED, msa + HDR, msa + HDR;
      mem := words;
      lfree, usedMem, maxMem := 0, 0, 0;
      blocks := [Block(0, false)];
      new;
      TotalOne(blocks[0], heapEnd, true, 0);
      LiveOne(blocks[0], HDR, heapEnd);
    }

    /** rt_system_heap_init on byte addresses; no heap when the region cannot hold two headers. */
    static method SystemHeapInit(beginAddr: nat, endAddr: nat) returns (heap: Heap?)
      ensures var first, last := (beginAddr + 3) / 4, endAddr / 4;
              && (heap == null <==> !(last > 2 * HDR && last - 2 * HDR >= first))
              && (heap != null ==> heap.Valid() && fresh(heap) && heap.blocks == [Block(0, false)]
                                   && heap.memSizeAligned == last - first - 2 * HDR)
    {
      var beginAlign, endAlign := (beginAddr + 3) / 4, endAddr / 4;
      if endAlign > 2 * HDR && endAlign - 2 * HDR >= beginAlign {
        heap := new Heap(endAlign - beginAlign - 2 * HDR);
      } else {
        heap := null;
      }
    }

    /** Free block a takes over the free block b behind it: either half of plug_holes. */
    method Absorb(a: int, b: int, ghost i: nat)
      requires Linked() && i + 1 < |blocks| && !blocks[i].used && !blocks[i + 1].used
      requires blocks[i].at == a && blocks[i + 1].at == b
      requires LowestBut(blocks, heapEnd, lfree, a) && (lfree <= a || lfree == b)
      modifies mem, `lfree, `blocks
      ensures Sound() && blocks == Replace(old(blocks), i, i + 2, [old(blocks)[i]])
      ensures Unchanged(old(mem[..]), mem[..], old(blocks), HDR, heapEnd)
    {
      hide Tiled, Headers, LowestFree, LowestBut, Unchanged;
      ghost var bs, w := blocks, mem[..];
      Behind(w, bs, heapEnd, i);
      if lfree == b {
        lfree := a;
      }
      mem[a + 1] := mem[b + 1];
      mem[mem[b + 1] + 2] := a;
      assert Absorbs(w, mem[..], bs, heapEnd, i);
      AbsorbHeaders(w, mem[..], bs, heapEnd, i);
      blocks := Replace(bs, i, i + 2, [bs[i]]);
      AbsorbUnchanged(w, mem[..], bs, heapEnd, i);
      AbsorbLowest(bs, heapEnd, i, old(lfree));
    }

    /** The forward half of plug_holes. */
    method PlugForward(m: int, ghost i: nat)
      requires Sound() && i < |blocks| && blocks[i].at == m && !blocks[i].used
      modifies mem, `lfree, `blocks
      ensures Sound() && blocks == MergedForward(old(blocks), i)
      ensures Unchanged(old(mem[..]), mem[..], old(blocks), HDR, heapEnd)
    {
      Neighbours(mem[..], blocks, heapEnd, i);
      var nmem := mem[m + 1];
      if m != nmem && mem[nmem] == FREE && nmem != heapEnd {
        Absorb(m, nmem, i);
      }
    }

    /** The backward half of plug_holes. */
    method PlugBackward(m: int, ghost i: nat)
      requires Sound() && i < |blocks| && blocks[i].at == m && !blocks[i].used
      modifies mem, `lfree, `blocks
      ensures Sound() && blocks == MergedBackward(old(blocks), i)
      ensures Unchanged(old(mem[..]), mem[..], old(blocks), HDR, heapEnd)
    {
      Neighbours(mem[..], blocks, heapEnd, i);
      var pmem := mem[m + 2];
      if pmem != m && mem[pmem] == FREE {
        Absorb(pmem, m, i - 1);
      }
    }

    /** Combines free block m with free neighbours. */
    method PlugHoles(m: int, ghost i: nat)
      requires Sound() && i < |blocks| && blocks[i].at == m && !blocks[i].used
      modifies mem, `lfree, `blocks
      ensures Sound() && blocks == Merge(old(blocks), i)
      ensures Unchanged(old(mem[..]), mem[..], old(blocks), HDR, heapEnd)
    {
      PlugForward(m, i);
      ghost var v := mem[..];
      PlugBackward(m, i);
      MergeSteps(old(blocks), i);
      ForwardThenUnchanged(old(mem[..]), v, mem[..], old(blocks), HDR, heapEnd, i);
    }

    /** Address of block k, or of the sentinel. */
    ghost function At(k: nat): nat
      requires k <= |blocks|
      reads this
    {
      if k < |blocks| then blocks[k].at else heapEnd
    }

    /** Moves lfree past used blocks to the next free one. */
    method AdvanceLfree(ghost k: nat)
      requires Linked() && k <= |blocks| && lfree == At(k) && forall j :: 0 <= j < k ==> blocks[j].used
      modifies `lfree
      ensures Sound()
    {
      ghost var i := k;
      assert i < |blocks| ==> HeaderAt(mem[..], blocks, heapEnd, i);
      while mem[lfree] == USED && lfree != heapEnd
        invariant k <= i <= |blocks| && lfree == At(i)
        invariant forall j :: 0 <= j < i ==> blocks[j].used
        invariant i < |blocks| ==> HeaderAt(mem[..], blocks, heapEnd, i)
        decreases |blocks| - i
      {
        lfree := mem[lfree + 1];
        i := i + 1;
        assert i < |blocks| ==> HeaderAt(mem[..], blocks, heapEnd, i);
      }
      if i < |blocks| {
        assert blocks[i] == Block(lfree, false);
      }
    }

    /** Writes a free header at ptr2 and links it between ptr and its successor. */
    method InsertHeader(ptr: nat, ptr2: nat)
      requires ptr + HDR <= ptr2 && ptr2 + HDR <= mem.Length && ptr2 + HDR <= mem[ptr + 1]
               && mem[ptr + 1] + HDR <= mem.Length
      modifies mem
      ensures var stop := old(mem[ptr + 1]);
              && mem[ptr2] == FREE && mem[ptr2 + 1] == stop && mem[ptr2 + 2] == ptr && mem[ptr + 1] == ptr2
              && (stop != memSizeAligned + HDR ==> mem[stop + 2] == ptr2)
              && forall q :: 0 <= q < mem.Length && q != ptr + 1 && !(ptr2 <= q <= ptr2 + 2) && q != stop + 2 ==>
                 mem[q] == old(mem[q])
    {
      mem[ptr2] := FREE;
      mem[ptr2 + 1] := mem[ptr + 1];
      mem[ptr2 + 2] := ptr;
      mem[ptr + 1] := ptr2;
      if mem[ptr2 + 1] != memSizeAligned + HDR {
        mem[mem[ptr2 + 1] + 2] := ptr2;
      }
    }

    /** Writes a free header behind the first `size` words of block ptr. */
    method Cut(ptr: int, size: nat, ghost i: nat)
      requires Linked() && i < |blocks| && blocks[i].at == ptr && Room(blocks, HDR, heapEnd, i) >= size + HDR
      modifies mem, `blocks
      ensures Linked() && blocks == CutLayout(old(blocks), HDR, i, size)
      ensures Unchanged(old(mem[..]), mem[..], blocks, HDR, heapEnd)
    {
      hide Headers, Tiled, CutLayout;
      ghost var bs, w := blocks, mem[..];
      Neighbours(w, bs, heapEnd, i);
      InsertHeader(ptr, ptr + HDR + size);
      assert Cuts(w, mem[..], bs, heapEnd, i, size);
      CutHeaders(w, mem[..], bs, heapEnd, i, size);
      CutUnchanged(w, mem[..], bs, heapEnd, i, size);
      blocks := CutLayout(bs, HDR, i, size);
    }

    /** Splits or takes whole the fitting block ptr and counts its span as used. */
    method Mark(ptr: int, size: nat, ghost i: nat)
      requires Linked() && i < |blocks| && blocks[i].at == ptr && !blocks[i].used
               && Room(blocks, HDR, heapEnd, i) >= size
      modifies mem, `blocks, `usedMem
      ensures Linked() && blocks == Carve(old(blocks), HDR, heapEnd, i, size, MIN)
      ensures usedMem == old(usedMem) + Granted(old(blocks), HDR, heapEnd, i, size, MIN) + HDR
      ensures Unchanged(old(mem[..]), mem[..], old(blocks), HDR, heapEnd)
    {
      hide Headers, Tiled, Unchanged;
      Neighbours(mem[..], blocks, heapEnd, i);
      if mem[ptr + 1] - (ptr + HDR) >= size + HDR + MIN {
        ghost var bs, w := blocks, mem[..];
        Cut(ptr, size, i);
        ghost var v := mem[..];
        SetUsed(ptr, i);
        usedMem := usedMem + (size + HDR);
        CutKeepsUsed(w, v, mem[..], bs, HDR, heapEnd, i, size);
        assert blocks == Carve(bs, HDR, heapEnd, i, size, MIN);
      } else {
        SetUsed(ptr, i);
        assert blocks == Carve(old(blocks), HDR, heapEnd, i, size, MIN);
        Neighbours(mem[..], blocks, heapEnd, i);
        usedMem := usedMem + (mem[ptr + 1] - ptr);
      }
    }

    method SetUsed(m: int, ghost i: nat)
      requires Linked() && i < |blocks| && blocks[i].at == m
      modifies mem, `blocks
      ensures Linked() && blocks == old(blocks)[i := Block(m, true)]
      ensures Unchanged(old(mem[..]), mem[..], old(blocks), HDR, heapEnd)
    {
      ghost var bs, w := blocks, mem[..];
      mem[m] := USED;
      FlagHeaders(w, mem[..], bs, heapEnd, i, true);
      FlagUnchanged(w, mem[..], bs, heapEnd, i);
      blocks := bs[i := Block(m, true)];
    }

    /** The allocating part of rt_malloc, once block ptr is found to fit. */
    method Take(ptr: int, size: nat, ghost i: nat)
      requires Valid() && i < |blocks| && blocks[i].at == ptr && !blocks[i].used
               && Room(blocks, HDR, heapEnd, i) >= size >= 1
      modifies mem, this
      ensures Valid() && blocks == Carve(old(blocks), HDR, heapEnd, i, size, MIN)
      ensures maxMem == Max(old(maxMem), usedMem)
      ensures Unchanged(old(mem[..]), mem[..], old(blocks), HDR, heapEnd)
    {
      hide Headers, Live, Total, Tiled, Unchanged, Carve;
      CarveLowest(blocks, heapEnd, i, size, lfree);
      CarveTotals(blocks, HDR, heapEnd, i, size, MIN);
      CarveTiled(blocks, HDR, heapEnd, i, size, MIN);
      CarveLive(blocks, HDR, heapEnd, i, size, MIN);
      Mark(ptr, size, i);
      if maxMem < usedMem {
        maxMem := usedMem;
      }
      if ptr == lfree {
        AdvanceLfree(i);
      }
    }

    /** rt_malloc. */
    method Malloc(bytes: nat) returns (r: int)
      requires Valid() && bytes <= MAX_REQUEST && memSizeAligned >= MIN
      modifies mem, this
      ensures Valid()
      ensures bytes == 0 ==> r == NULL && blocks == old(blocks)
      ensures bytes > 0 ==> Allocated(old(blocks), blocks, heapEnd, Want(bytes), r)
      ensures r == NULL ==> mem[..] == old(mem[..]) && unchanged(this)
      ensures r != NULL ==> r !in old(LiveMap()) && r in LiveMap()
                            && LiveMap() == old(LiveMap())[r := LiveMap()[r]]
      ensures r != NULL ==> LiveMap()[r] >= Want(bytes)
      ensures r != NULL ==> bytes <= 4 * LiveMap()[r] < Max(bytes, 12) + 4 * (HDR + MIN)
      ensures maxMem == Max(old(maxMem), usedMem)
      ensures Keeps(old(mem[..]), mem[..], old(LiveMap()))
    {
      KeepsSelf();
      if bytes == 0 {
        return NULL;
      }
      var size := Align(bytes);
      if size > memSizeAligned {
        return NULL;
      }
      if size < MIN {
        size := MIN;
      }
      ghost var i: nat;
      r, i := Scan(size);
      if r != NULL {
        Take(r, size, i);
        r := r + HDR;
        AllocatedLive(old(blocks), blocks, heapEnd, size, r);
        UntouchedKeeps(old(mem[..]), mem[..], old(blocks), HDR, heapEnd);
      }
    }

    /** The scan of rt_malloc: from lfree upwards to the first block that fits. */
    method Scan(size: nat) returns (ptr: int, ghost i: nat)
      requires Valid() && size >= 1
      ensures ptr == NULL ==> forall j :: !Fits(blocks, heapEnd, size, j)
      ensures ptr != NULL ==> FirstFit(blocks, heapEnd, size, i) && blocks[i].at == ptr
    {
      i := LfreeIndex();
      ptr := lfree;
      while ptr < memSizeAligned - size
        invariant i <= |blocks| && ptr == At(i)
        invariant forall j :: 0 <= j < i ==> !Fits(blocks, heapEnd, size, j)
        decreases |blocks| - i
      {
        Neighbours(mem[..], blocks, heapEnd, i);
        assert HeaderAt(mem[..], blocks, heapEnd, i);
        if mem[ptr] != USED && mem[ptr + 1] - (ptr + HDR) >= size {
          return;
        }
        ptr := mem[ptr + 1];
        i := i + 1;
      }
      NoFitAbove(blocks, heapEnd, size, i);
      ptr := NULL;
    }

    /** rt_free. */
    method Free(rmem: int)
      requires Valid() && (rmem == NULL || rmem in LiveMap())
      modifies mem, this
      ensures Valid() && maxMem == old(maxMem)
      ensures rmem == NULL ==> mem[..] == old(mem[..]) && unchanged(this)
      ensures rmem != NULL ==> Freed(old(blocks), blocks, rmem) && LiveMap() == old(LiveMap()) - {rmem}
      ensures Keeps(old(mem[..]), mem[..], LiveMap())
    {
      if rmem == NULL {
        KeepsSelf();
        return;
      }
      ghost var i := LiveBlock(blocks, HDR, heapEnd, rmem);
      FreeBlock(rmem - HDR, i);
    }

    /** The releasing part of rt_free, for the header m of a live block. */
    method FreeBlock(m: int, ghost i: nat)
      requires Valid() && i < |blocks| && blocks[i].at == m && blocks[i].used
      modifies mem, this
      ensures Valid() && maxMem == old(maxMem) && blocks == Release(old(blocks), i)
      ensures LiveMap() == old(LiveMap()) - {m + HDR}
      ensures Keeps(old(mem[..]), mem[..], LiveMap())
    {
      hide Headers, Live, Total, Tiled, Unchanged, Merge, Keeps, LowestFree;
      ghost var bs, w := blocks, mem[..];
      ReleaseFacts(bs, HDR, heapEnd, i);
      Unmark(m, i);
      ghost var v := mem[..];
      PlugHoles(m, i);
      ReleaseKeeps(w, v, mem[..], bs, HDR, heapEnd, i);
    }

    /** Clears the use flag of block m and takes its span off the used count. */
    method Unmark(m: int, ghost i: nat)
      requires Sound() && i < |blocks| && blocks[i] .at == m && blocks[i].used
      requires usedMem >= Next(blocks, heapEnd, i) - m
      modifies mem, `lfree, `blocks, `usedMem
      ensures Sound() && blocks == Unuse(old(blocks), i)
      ensures usedMem == old(usedMem) - (Next(old(blocks), heapEnd, i) - m)
      ensures Unchanged(old(mem[..]), mem[..], old(blocks), HDR, heapEnd)
    {
      ghost var bs, w := blocks, mem[..];
      Neighbours(w, bs, heapEnd, i);
      UnuseLowest(bs, heapEnd, i, lfree);
      mem[m] := FREE;
      FlagHeaders(w, mem[..], bs, heapEnd, i, false);
      FlagUnchanged(w, mem[..], bs, heapEnd, i);
      blocks := Unuse(bs, i);
      if m < lfree {
        lfree := m;
      }
      usedMem := usedMem - (mem[m + 1] - m);
    }

    /** rt_realloc on a live block, when the part given up can hold a block of its own. */
    method Shrink(m: int, newsize: nat, ghost i: nat)
      requires Valid() && i < |blocks| && blocks[i].at == m && blocks[i].used
      requires 1 <= newsize && newsize + HDR + MIN < Room(blocks, HDR, heapEnd, i)
      modifies mem, this
      ensures Valid() && maxMem == old(maxMem)
      ensures LiveMap() == old(LiveMap())[m + HDR := newsize]
      ensures Keeps(old(mem[..]), mem[..], LiveMap())
    {
      hide Headers, Live, Total, Tiled, Unchanged, CutLayout, Keeps, LowestFree, Merge;
      ghost var bs, w := blocks, mem[..];
      TrimFacts(bs, HDR, heapEnd, i, newsize);
      CutTail(m, newsize, i);
      ghost var v := mem[..];
      PlugHoles(m + HDR + newsize, i + 1);
      TrimKeeps(w, v, mem[..], bs, HDR, heapEnd, i, newsize);
    }

    /** Cuts the tail off live block m, before it is merged with what follows. */
    method CutTail(m: int, newsize: nat, ghost i: nat)
      requires Sound() && i < |blocks| && blocks[i].at == m && blocks[i].used
      requires newsize + HDR <= Room(blocks, HDR, heapEnd, i) <= usedMem + newsize
      modifies mem, `lfree, `usedMem, `blocks
      ensures Sound() && blocks == CutLayout(old(blocks), HDR, i, newsize)
      ensures usedMem == old(usedMem) - (Room(old(blocks), HDR, heapEnd, i) - newsize)
      ensures Unchanged(old(mem[..]), mem[..], blocks, HDR, heapEnd)
    {
      Neighbours(mem[..], blocks, heapEnd, i);
      CutLowest(blocks, heapEnd, i, newsize, lfree);
      var size := mem[m + 1] - m - HDR;
      usedMem := usedMem - (size - newsize);
      var ptr2 := m + HDR + newsize;
      Cut(m, newsize, i);
      if ptr2 < lfree {
        lfree := ptr2;
      }
    }

    /** rt_memcpy of n words between two live blocks, seen from the heap. */
    method CopyBlock(dst: int, src: int, n: nat)
      requires Valid() && dst in LiveMap() && src in LiveMap() && dst != src
      requires n <= LiveMap()[dst] && n <= LiveMap()[src]
      modifies mem
      ensures Valid()
      ensures Copied(old(mem[..]), mem[..], src, dst, n)
      ensures Keeps(old(mem[..]), mem[..], LiveMap() - {dst})
    {
      ghost var w := mem[..];
      ghost var i := LivePair(blocks, HDR, heapEnd, dst, src);
      Memcpy(mem, dst, src, n);
      PayloadHeaders(w, mem[..], blocks, heapEnd, i);
      CopyKeeps(w, mem[..], blocks, HDR, heapEnd, i);
    }

    /** rt_realloc's last resort: a new block, a copy, and the old block freed. */
    method Move(rmem: int, size: nat, newsize: nat) returns (nmem: int)
      requires Valid() && memSizeAligned >= MIN && 0 < 4 * newsize <= MAX_REQUEST
      requires rmem in LiveMap() && LiveMap()[rmem] == size
      modifies mem, this
      ensures Valid() && maxMem >= old(maxMem)
      ensures nmem == NULL ==> mem[..] == old(mem[..]) && unchanged(this)
                               && !CanFit(blocks, heapEnd, Want(4 * newsize))
      ensures nmem != NULL ==> CanFit(old(blocks), heapEnd, Want(4 * newsize))
      ensures nmem != NULL ==> Moved(old(LiveMap()), LiveMap(), rmem, nmem, Want(4 * newsize))
      ensures Keeps(old(mem[..]), mem[..], old(LiveMap()) - {rmem})
      ensures nmem != NULL ==> Copied(old(mem[..]), mem[..], rmem, nmem, if size < newsize then size else newsize)
    {
      hide Headers, Tiled, Live, Keeps, Total, Coalesced, LowestFree, Copied, Positive;
      ghost var w, live := mem[..], LiveMap();
      nmem := Malloc(4 * newsize);
      KeepsFewer(w, mem[..], live, rmem);
      if nmem != NULL {
        var n := if size < newsize then size else newsize;
        ghost var now, v := LiveMap(), mem[..];
        CopyBlock(nmem, rmem, n);
        ghost var x := mem[..];
        Free(rmem);
        MoveKeeps(w, v, x, mem[..], live, now, rmem, nmem, n);
      }
    }

    /** rt_realloc.  A pointer outside the heap comes back as it is. */
    method Realloc(rmem: int, newbytes: nat) returns (r: int)
      requires Valid() && newbytes <= MAX_REQUEST && memSizeAligned >= MIN
      requires rmem == NULL || rmem in LiveMap() || ((rmem < 0 || rmem >= heapEnd) && newbytes > 0)
      modifies mem, this
      ensures Valid() && maxMem >= old(maxMem)
      ensures Reallocated(old(blocks), blocks, heapEnd, rmem, Align(newbytes), r)
      ensures r == NULL && newbytes > 0 ==> mem[..] == old(mem[..]) && unchanged(this)
      ensures Keeps(old(mem[..]), mem[..], old(LiveMap()) - {rmem})
      ensures r != NULL && (rmem == NULL || rmem in old(LiveMap())) ==>
                OnlyChanged(old(LiveMap()), LiveMap(), rmem, r) && 4 * LiveMap()[r] >= newbytes
      ensures r != NULL && rmem in old(LiveMap()) ==>
                && 0 <= rmem <= rmem + old(LiveMap())[rmem] <= mem.Length && 0 <= r <= r + LiveMap()[r] <= mem.Length
                && forall q :: rmem <= q < rmem + old(LiveMap())[rmem] && 4 * (q - rmem) < newbytes ==>
                     old(mem[q]) == mem[r + (q - rmem)]
    {
      hide Headers, Keeps, Tiled, Live, Reallocated, Total, Coalesced, LowestFree, OnlyChanged, Copied;
      ghost var bs, w := blocks, mem[..];
      LiveNotNull();
      if rmem in LiveMap() { LiveRange(rmem); }
      r := ReallocAligned(rmem, Align(newbytes));
      if r != NULL && (rmem == NULL || rmem in Live(bs, HDR, heapEnd)) {
        ReallocatedOwns(bs, blocks, heapEnd, rmem, Align(newbytes), r);
        OnlyOwner(Live(bs, HDR, heapEnd), LiveMap(), rmem, r);
        LiveRange(r);
      }
      if r != NULL && rmem in Live(bs, HDR, heapEnd) {
        CopiedWords(w, mem[..], rmem, r, Carried(bs, HDR, heapEnd, rmem, Align(newbytes)));
      }
    }

    /** The rest of rt_realloc, once the size is aligned. */
    method ReallocAligned(rmem: int, newsize: nat) returns (r: int)
      requires Valid() && 4 * newsize <= MAX_REQUEST && memSizeAligned >= MIN
      requires rmem == NULL || rmem in LiveMap() || ((rmem < 0 || rmem >= heapEnd) && newsize > 0)
      modifies mem, this
      ensures Valid() && maxMem >= old(maxMem) && Tiled(old(blocks), HDR, heapEnd) && Coalesced(old(blocks))
      ensures Reallocated(old(blocks), blocks, heapEnd, rmem, newsize, r)
      ensures r == NULL && newsize > 0 ==> mem[..] == old(mem[..]) && unchanged(this)
      ensures Keeps(old(mem[..]), mem[..], old(LiveMap()) - {rmem})
      ensures r != NULL && rmem in old(LiveMap()) ==>
                Copied(old(mem[..]), mem[..], rmem, r, Carried(old(blocks), HDR, heapEnd, rmem, newsize))
    {
      hide Headers, Keeps, Tiled, Live;
      if newsize > memSizeAligned {
        KeepsSelf();
        return NULL;
      } else if newsize == 0 {
        Free(rmem);
        return NULL;
      }
      if rmem == NULL {
        r := Malloc(4 * newsize);
        KeepsFewer(old(mem[..]), mem[..], old(LiveMap()), rmem);
      } else {
        r := ReallocPointer(rmem, newsize);
      }
    }

    /** rt_realloc on a pointer and a nonzero size within bounds. */
    method ReallocPointer(rmem: int, newsize: nat) returns (r: int)
      requires Valid() && memSizeAligned >= MIN && 0 < newsize <= memSizeAligned && 4 * newsize <= MAX_REQUEST
      requires rmem != NULL && (rmem in LiveMap() || rmem < 0 || rmem >= heapEnd)
      modifies mem, this
      ensures Valid() && maxMem >= old(maxMem)
      ensures Reallocated(old(blocks), blocks, heapEnd, rmem, newsize, r)
      ensures r == NULL ==> mem[..] == old(mem[..]) && unchanged(this)
      ensures Keeps(old(mem[..]), mem[..], old(LiveMap()) - {rmem})
      ensures r != NULL && rmem in old(LiveMap()) ==>
                Copied(old(mem[..]), mem[..], rmem, r, Carried(old(blocks), HDR, heapEnd, rmem, newsize))
    {
      LiveBelowEnd();
      if rmem < 0 || rmem >= heapEnd {
        KeepsSelf();
        return rmem;
      }
      r := ReallocLive(rmem, newsize);
    }

    /** rt_realloc on a live block and a nonzero size. */
    method ReallocLive(rmem: int, newsize: nat) returns (r: int)
      requires Valid() && memSizeAligned >= MIN && 0 < newsize <= memSizeAligned && 4 * newsize <= MAX_REQUEST
      requires rmem in LiveMap()
      modifies mem, this
      ensures Valid() && maxMem >= old(maxMem)
      ensures Reallocated(old(blocks), blocks, heapEnd, rmem, newsize, r)
      ensures r == NULL ==> mem[..] == old(mem[..]) && unchanged(this)
      ensures Keeps(old(mem[..]), mem[..], old(LiveMap()) - {rmem})
      ensures r != NULL ==> Copied(old(mem[..]), mem[..], rmem, r, Carried(old(blocks), HDR, heapEnd, rmem, newsize))
    {
      hide Tiled, Live, Total, Keeps, Coalesced, LowestFree, CanFit;
      ghost var bs, w, live := blocks, mem[..], LiveMap();
      ghost var i := LiveBlock(bs, HDR, heapEnd, rmem);
      Neighbours(w, bs, heapEnd, i);
      var m := rmem - HDR;
      var size := mem[m + 1] - m - HDR;
      if size == newsize {
        KeepsSelf();
        return rmem;
      }
      if newsize + HDR + MIN < size {
        r := rmem;
        Shrink(m, newsize, i);
        ShrinkKeeps(w, mem[..], live, rmem, newsize);
        return;
      }
      r := Move(rmem, size, newsize);
    }

    /** A caller writes word q of live block r. */
    method Poke(r: int, q: int, v: int)
      requires Valid() && r in LiveMap() && r <= q < r + LiveMap()[r]
      modifies mem
      ensures Valid() && 0 <= q < mem.Length && mem[q] == v
      ensures Keeps(old(mem[..]), mem[..], LiveMap() - {r})
    {
      hide Headers, Keeps, Live, Total, Coalesced, LowestFree;
      ghost var w := mem[..];
      ghost var i := LiveItem(blocks, HDR, heapEnd, r);
      SpanInside(blocks, heapEnd, i);
      mem[q] := v;
      PayloadHeaders(w, mem[..], blocks, heapEnd, i);
      CopyKeeps(w, mem[..], blocks, HDR, heapEnd, i);
    }

    /** rt_malloc_align for an alignment of `align` words, a power of two; `base` is the word address of the heap.
        Masking with align - 1 is then the remainder. */
    method MallocAlign(bytes: nat, align: nat, base: nat) returns (p: int, ghost whole: int)
      requires Valid() && memSizeAligned >= MIN && PowerOfTwo(align) && bytes + 4 * align <= MAX_REQUEST
      modifies mem, this
      ensures Valid()
      ensures p == NULL ==> mem[..] == old(mem[..]) && unchanged(this)
      ensures p != NULL ==>
                && whole !in old(LiveMap()) && whole in LiveMap()
                && LiveMap() == old(LiveMap())[whole := LiveMap()[whole]]
                && whole < p && 4 * p + bytes <= 4 * (whole + LiveMap()[whole]) && Multiple(base + p, align)
                && 0 < p < mem.Length && mem[p - 1] == whole
      ensures Keeps(old(mem[..]), mem[..], old(LiveMap()))
    {
      hide Headers, Keeps, Live, Total, Coalesced, LowestFree, Allocated, Positive, Tiled;
      ghost var live := LiveMap();
      var ptr := Malloc(4 * (Align(bytes) + align));
      whole := ptr;
      p := ptr;
      if ptr != NULL {
        LiveRange(ptr);
        NextMultiple(base + ptr, align);
        if (base + ptr) % align == 0 {
          p := ptr + align;
        } else {
          p := ptr + align - (base + ptr) % align;
        }
        ghost var v := mem[..];
        Poke(ptr, p - 1, ptr);
        KeepsTwice(old(mem[..]), v, mem[..], live, LiveMap(), ptr);
      }
    }

    /** rt_free_align: the word in front of the aligned address is the address to free. */
    method FreeAlign(p: int)
      requires Valid() && 0 < p < mem.Length && mem[p - 1] in LiveMap() && mem[p - 1] != NULL
      modifies mem, this
      ensures Valid() && LiveMap() == old(LiveMap()) - {old(mem[p - 1])}
      ensures Keeps(old(mem[..]), mem[..], LiveMap())
    {
      Free(mem[p - 1]);
    }

    /** The payload of a live block lies in the buffer, in front of the sentinel. */
    lemma LiveRange(r: int)
      requires Valid() && r in LiveMap()
      ensures 0 < r <= r + LiveMap()[r] <= heapEnd < mem.Length
    {
      hide Headers, Live, Total, Coalesced, LowestFree;
      var i := LiveItem(blocks, HDR, heapEnd, r);
      SpanInside(blocks, heapEnd, i);
    }

    lemma LiveNotNull()
      requires Valid()
      ensures NULL !in LiveMap()
    {
      LiveBelowEnd();
    }

    lemma KeepsSelf()
      requires Valid()
      ensures Keeps(mem[..], mem[..], LiveMap()) && forall p :: Keeps(mem[..], mem[..], LiveMap() - {p})
    {
      UntouchedKeeps(mem[..], mem[..], blocks, HDR, heapEnd);
    }

    lemma LiveBelowEnd()
      requires Valid()
      ensures forall p :: p in LiveMap() ==> HDR <= p < heapEnd
    {
      LiveInside(blocks, HDR, heapEnd);
    }

    /** Index of the block lfree points at; every block before it is used. */
    lemma LfreeIndex() returns (i: nat)
      requires Sound()
      ensures i <= |blocks| && lfree == At(i) && forall j :: 0 <= j < i ==> blocks[j].used
    {
      if lfree == heapEnd {
        i := |blocks|;
      } else {
        i :| 0 <= i < |blocks| && blocks[i] == Block(lfree, false);
      }
      forall j | 0 <= j < i ensures blocks[j].used {
        assert blocks[j] in blocks;
      }
    }
  }
}
