/** Address-ordered block layouts, the value both allocators are proved against.
    A layout lists the blocks of a pool from low to high address, without the closing sentinel
    that sits at `end`.  A block starts with a header of `h` words and reaches to the next block;
    the words between are its payload. */
module Tiling {

  datatype Block = Block(at: nat, used: bool)

  /** The blocks start at 0, leave room for every header and end at the sentinel. */
  ghost predicate Tiled(bs: seq<Block>, h: nat, end: nat) {
    && |bs| > 0
    && bs[0].at == 0
    && (forall i, j :: 0 <= i < j < |bs| ==> bs[i].at + h <= bs[j].at)
    && (forall i :: 0 <= i < |bs| ==> bs[i].at + h <= end)
  }

  /** No two neighbours are both free. */
  ghost predicate Coalesced(bs: seq<Block>) {
    forall i :: 0 <= i < |bs| - 1 ==> bs[i].used || bs[i + 1].used
  }

  /** Address of the block (or sentinel) after block i. */
  ghost function Next(bs: seq<Block>, end: nat, i: nat): nat
    requires i < |bs|
  {
    if i + 1 < |bs| then bs[i + 1].at else end
  }

  /** Payload words of block i. */
  ghost function Room(bs: seq<Block>, h: nat, end: nat, i: nat): int
    requires i < |bs|
  {
    Next(bs, end, i) - bs[i].at - h
  }

  /** Blocks i..j-1 give way to `mid`; every heap operation is one such replacement. */
  ghost function Replace(bs: seq<Block>, i: nat, j: nat, mid: seq<Block>): seq<Block>
    requires i <= j <= |bs|
  {
    bs[..i] + mid + bs[j..]
  }

  // ----- the operations on layouts -----

  /** Allocate `size` words in free block i; the rest becomes a free block when it can hold a
      header and `least` words. */
  ghost function Carve(bs: seq<Block>, h: nat, end: nat, i: nat, size: nat, least: nat): seq<Block>
    requires i < |bs|
  {
    var taken := Block(bs[i].at, true);
    if Room(bs, h, end, i) >= size + h + least
    then Replace(bs, i, i + 1, [taken, Block(bs[i].at + h + size, false)])
    else Replace(bs, i, i + 1, [taken])
  }

  /** Free block i absorbs its free neighbours. */
  ghost function Merge(bs: seq<Block>, i: nat): seq<Block>
    requires i < |bs|
  {
    var lo := MergeLow(bs, i);
    Replace(bs, lo, MergeHigh(bs, i), [Block(bs[lo].at, false)])
  }

  ghost function MergeLow(bs: seq<Block>, i: nat): (lo: nat)
    requires i < |bs|
    ensures lo <= i
  {
    if i > 0 && !bs[i - 1].used then i - 1 else i
  }

  ghost function MergeHigh(bs: seq<Block>, i: nat): (hi: nat)
    requires i < |bs|
    ensures i < hi <= |bs|
  {
    if i + 1 < |bs| && !bs[i + 1].used then i + 2 else i + 1
  }

  ghost function Release(bs: seq<Block>, i: nat): seq<Block>
    requires i < |bs|
  {
    Merge(Unuse(bs, i), i)
  }

  /** Used block i keeps `size` words; the words after it become a free block. */
  ghost function Split(bs: seq<Block>, h: nat, i: nat, size: nat): seq<Block>
    requires i < |bs|
  {
    Replace(bs, i, i + 1, [Block(bs[i].at, true), Block(bs[i].at + h + size, false)])
  }

  ghost function Trim(bs: seq<Block>, h: nat, i: nat, size: nat): seq<Block>
    requires i < |bs|
  {
    Merge(Split(bs, h, i, size), i + 1)
  }

  /** Used block i grows to `size` words into the free block after it. */
  ghost function Grow(bs: seq<Block>, h: nat, i: nat, size: nat): seq<Block>
    requires i + 1 < |bs|
  {
    Replace(bs, i, i + 2, [Block(bs[i].at, true), Block(bs[i].at + h + size, false)])
  }

  // ----- what a layout amounts to -----

  /** Sum over the blocks with the given use flag of their span less `h`:
      h = 0 counts headers in, h = header size counts payloads only. */
  ghost function Total(bs: seq<Block>, end: int, used: bool, h: nat): int {
    if |bs| == 0 then 0
    else
      var last := bs[|bs| - 1];
      Total(bs[..|bs| - 1], last.at, used, h) + if last.used == used then end - last.at - h else 0
  }

  /** The live allocations: payload address to payload length. */
  ghost function Live(bs: seq<Block>, h: nat, end: int): map<int, int> {
    if |bs| == 0 then map[]
    else
      var last := bs[|bs| - 1];
      var rest := Live(bs[..|bs| - 1], h, last.at);
      if last.used then rest[last.at + h := end - last.at - h] else rest
  }

  /** Address at which the part after a prefix begins. */
  ghost function Start(bs: seq<Block>, end: int): int {
    if |bs| == 0 then end else bs[0].at
  }

  lemma {:induction false} TotalAppend(a: seq<Block>, b: seq<Block>, end: int, used: bool, h: nat)
    ensures Total(a + b, end, used, h) == Total(a, Start(b, end), used, h) + Total(b, end, used, h)
  {
    if |b| == 0 {
      assert a + b == a;
    } else {
      var last := b[|b| - 1];
      var front := b[..|b| - 1];
      assert (a + b)[..|a + b| - 1] == a + front;
      TotalAppend(a, front, last.at, used, h);
    }
  }

  lemma {:induction false} LiveAppend(a: seq<Block>, b: seq<Block>, h: nat, end: int)
    ensures Live(a + b, h, end) == Live(a, h, Start(b, end)) + Live(b, h, end)
  {
    if |b| == 0 {
      assert a + b == a;
    } else {
      var last := b[|b| - 1];
      var front := b[..|b| - 1];
      assert (a + b)[..|a + b| - 1] == a + front;
      LiveAppend(a, front, h, last.at);
    }
  }

  /** A live allocation is a used block, and conversely. */
  lemma {:induction false} LiveBlock(bs: seq<Block>, h: nat, end: nat, p: int) returns (i: nat)
    requires p in Live(bs, h, end)
    ensures i < |bs| && bs[i].used && bs[i].at + h == p && Live(bs, h, end)[p] == Room(bs, h, end, i)
  {
    var last := bs[|bs| - 1];
    if last.used && p == last.at + h {
      i := |bs| - 1;
    } else {
      i := LiveBlock(bs[..|bs| - 1], h, last.at, p);
    }
  }

  lemma {:induction false} BlockLive(bs: seq<Block>, h: nat, end: nat, i: nat)
    requires i < |bs|
    requires forall k, l :: 0 <= k < l < |bs| ==> bs[k].at != bs[l].at
    ensures bs[i].at + h in Live(bs, h, end) <==> bs[i].used
    ensures bs[i].used ==> Live(bs, h, end)[bs[i].at + h] == Room(bs, h, end, i)
  {
    var last := bs[|bs| - 1];
    if i < |bs| - 1 {
      BlockLive(bs[..|bs| - 1], h, last.at, i);
    } else if !last.used && last.at + h in Live(bs[..i], h, last.at) {
      var k := LiveBlock(bs[..i], h, last.at, last.at + h);
      assert false;
    }
  }

  /** Used and free spans, headers included, fill the pool exactly. */
  lemma {:induction false} SpansFillPool(bs: seq<Block>, end: int)
    ensures Total(bs, end, true, 0) + Total(bs, end, false, 0) == end - Start(bs, end)
  {
    if |bs| > 0 {
      var last := bs[|bs| - 1];
      SpansFillPool(bs[..|bs| - 1], last.at);
    }
  }

  lemma TotalOne(b: Block, end: int, used: bool, h: nat)
    ensures Total([b], end, used, h) == if b.used == used then end - b.at - h else 0
  {
    assert [b][..0] == [];
  }

  lemma TotalTwo(a: Block, b: Block, end: int, used: bool, h: nat)
    ensures Total([a, b], end, used, h)
            == (if a.used == used then b.at - a.at - h else 0) + (if b.used == used then end - b.at - h else 0)
  {
    TotalOne(a, b.at, used, h);
    assert [a, b][..1] == [a];
  }

  lemma LiveOne(b: Block, h: nat, end: int)
    ensures Live([b], h, end) == if b.used then map[b.at + h := end - b.at - h] else map[]
  {
    assert [b][..0] == [];
  }

  lemma LiveTwo(a: Block, b: Block, h: nat, end: int)
    ensures Live([a, b], h, end) == Live([a], h, b.at) + Live([b], h, end)
  {
    assert [a, b] == [a] + [b];
    LiveAppend([a], [b], h, end);
  }

  /** The payload of one block is at most the total of its kind. */
  lemma TotalBounds(bs: seq<Block>, h: nat, end: nat, i: nat)
    requires Tiled(bs, h, end) && i < |bs|
    ensures 0 <= Room(bs, h, end, i) <= Total(bs, end, bs[i].used, h)
  {
    var used, low, high := bs[i].used, bs[..i], bs[i + 1..];
    TotalSplit(bs, end, used, h, i, i + 1);
    assert bs[i..i + 1] == [bs[i]];
    assert Start(high, end) == Next(bs, end, i);
    TotalOne(bs[i], Next(bs, end, i), used, h);
    TotalNonNegative(low, h, bs[i].at, used);
    TotalNonNegative(high, h, end, used);
  }

  lemma {:induction false} TotalNonNegative(bs: seq<Block>, h: nat, end: int, used: bool)
    requires forall i, j :: 0 <= i < j < |bs| ==> bs[i].at + h <= bs[j].at
    requires forall i :: 0 <= i < |bs| ==> bs[i].at + h <= end
    ensures Total(bs, end, used, h) >= 0
  {
    if |bs| > 0 {
      TotalNonNegative(bs[..|bs| - 1], h, bs[|bs| - 1].at, used);
    }
  }

  // ----- replacement: what stays and what changes -----

  lemma TotalSplit(bs: seq<Block>, end: int, used: bool, h: nat, i: nat, j: nat)
    requires i <= j <= |bs|
    ensures var stop := Start(bs[j..], end);
            Total(bs, end, used, h) == Total(bs[..i], Start(bs[i..j], stop), used, h)
                                       + Total(bs[i..j], stop, used, h) + Total(bs[j..], end, used, h)
  {
    assert bs == bs[..i] + (bs[i..j] + bs[j..]);
    TotalAppend(bs[..i], bs[i..j] + bs[j..], end, used, h);
    TotalAppend(bs[i..j], bs[j..], end, used, h);
  }

  lemma ReplaceTotal(bs: seq<Block>, end: int, i: nat, j: nat, mid: seq<Block>, used: bool, h: nat)
    requires i < j <= |bs| && |mid| > 0 && mid[0].at == bs[i].at
    ensures var stop := Start(bs[j..], end);
            Total(Replace(bs, i, j, mid), end, used, h)
            == Total(bs, end, used, h) - Total(bs[i..j], stop, used, h) + Total(mid, stop, used, h)
  {
    TotalSplit(bs, end, used, h, i, j);
    var ds := Replace(bs, i, j, mid);
    var k := i + |mid|;
    assert ds[..i] == bs[..i] && ds[i..k] == mid && ds[k..] == bs[j..];
    TotalSplit(ds, end, used, h, i, k);
  }

  lemma LiveThree(a: seq<Block>, b: seq<Block>, c: seq<Block>, h: nat, end: int, lo: int, hi: int)
    requires |b| > 0 && b[0].at == lo && hi == Start(c, end)
    ensures Live(a + b + c, h, end) == Live(a, h, lo) + Live(b, h, hi) + Live(c, h, end)
  {
    LiveAppend(a + b, c, h, end);
    LiveAppend(a, b, h, hi);
  }

  /** The live blocks before and after a stretch do not depend on the stretch. */
  lemma LiveAround(a: seq<Block>, c: seq<Block>, h: nat, end: nat, lo: nat, hi: nat)
    returns (la: map<int, int>, lc: map<int, int>)
    requires hi == Start(c, end)
    requires forall k :: 0 <= k < |a| ==> a[k].at < lo
    requires forall k :: 0 <= k < |c| ==> hi <= c[k].at < end
    ensures forall p :: p in la ==> p < lo + h
    ensures forall p :: p in lc ==> hi + h <= p
    ensures forall b: seq<Block> {:trigger a + b + c} :: |b| > 0 && b[0].at == lo ==>
              Live(a + b + c, h, end) == la + Live(b, h, hi) + lc
  {
    la, lc := Live(a, h, lo), Live(c, h, end);
    LiveWithin(a, h, lo, 0, lo);
    LiveWithin(c, h, end, hi, end);
    forall b: seq<Block> {:trigger a + b + c} | |b| > 0 && b[0].at == lo
      ensures Live(a + b + c, h, end) == la + Live(b, h, hi) + lc
    {
      LiveThree(a, b, c, h, end, lo, hi);
    }
  }

  /** Live allocations outside a replaced stretch keep their address and size. */
  lemma SwapLive(a: seq<Block>, b: seq<Block>, m: seq<Block>, c: seq<Block>, h: nat, end: nat, lo: nat, hi: nat)
    requires |b| > 0 && |m| > 0 && b[0].at == m[0].at == lo && hi == Start(c, end)
    requires forall k :: 0 <= k < |a| ==> a[k].at < lo
    requires forall k :: 0 <= k < |b| ==> lo <= b[k].at < hi
    requires forall k :: 0 <= k < |m| ==> lo <= m[k].at < hi
    requires forall k :: 0 <= k < |c| ==> hi <= c[k].at < end
    ensures Live(a + m + c, h, end) == (Live(a + b + c, h, end) - Live(b, h, hi).Keys) + Live(m, h, hi)
  {
    var la, lc := LiveAround(a, c, h, end, lo, hi);
    LiveWithin(b, h, hi, lo, hi);
    LiveWithin(m, h, hi, lo, hi);
    SwapMiddle(la, Live(b, h, hi), Live(m, h, hi), lc, lo + h, hi + h);
  }

  /** The three parts of a layout lie in three address ranges. */
  lemma SliceRanges(bs: seq<Block>, h: nat, end: nat, i: nat, j: nat)
    requires Tiled(bs, h, end) && h > 0 && i < j <= |bs|
    ensures var a, b, c, lo, hi := bs[..i], bs[i..j], bs[j..], bs[i].at, Next(bs, end, j - 1);
            && bs == a + b + c && b[0] == bs[i] && hi == Start(c, end)
            && (forall k :: 0 <= k < |a| ==> a[k].at < lo)
            && (forall k :: 0 <= k < |b| ==> lo <= b[k].at < hi)
            && (forall k :: 0 <= k < |c| ==> hi <= c[k].at < end)
  {
    var b, c := bs[i..j], bs[j..];
    forall k | 0 <= k < |b| ensures bs[i].at <= b[k].at < Next(bs, end, j - 1) {
      assert b[k] == bs[i + k];
    }
    forall k | 0 <= k < |c| ensures Next(bs, end, j - 1) <= c[k].at < end {
      assert c[k] == bs[j + k];
    }
  }

  lemma ReplaceLive(bs: seq<Block>, h: nat, end: nat, i: nat, j: nat, mid: seq<Block>,
      gone: set<int>, put: map<int, int>)
    requires i < j <= |bs| && |mid| > 0 && mid[0].at == bs[i].at
    requires Tiled(bs, h, end) && h > 0
    requires forall k :: 0 <= k < |mid| ==> bs[i].at <= mid[k].at < Next(bs, end, j - 1)
    requires Live(bs[i..j], h, Next(bs, end, j - 1)).Keys == gone && Live(mid, h, Next(bs, end, j - 1)) == put
    ensures Live(Replace(bs, i, j, mid), h, end) == (Live(bs, h, end) - gone) + put
  {
    var a, b, c := bs[..i], bs[i..j], bs[j..];
    SliceRanges(bs, h, end, i, j);
    SwapLive(a, b, mid, c, h, end, bs[i].at, Next(bs, end, j - 1));
  }

  lemma LiveWithin(bs: seq<Block>, h: nat, end: nat, lo: nat, hi: nat)
    requires forall k :: 0 <= k < |bs| ==> lo <= bs[k].at < hi
    ensures forall p :: p in Live(bs, h, end) ==> lo + h <= p < hi + h
  {
    forall p | p in Live(bs, h, end) ensures lo + h <= p < hi + h {
      var _ := LiveBlock(bs, h, end, p);
    }
  }

  lemma SwapMiddle(a: map<int, int>, b: map<int, int>, m: map<int, int>, c: map<int, int>, lo: int, hi: int)
    requires forall p :: p in a ==> p < lo
    requires forall p :: p in b || p in m ==> lo <= p < hi
    requires forall p :: p in c ==> hi <= p
    ensures a + m + c == ((a + b + c) - b.Keys) + m
  {
    var left, right := a + m + c, ((a + b + c) - b.Keys) + m;
    forall p ensures p in left <==> p in right {
    }
    assert left.Keys == right.Keys;
    forall p | p in left ensures left[p] == right[p] {
    }
  }

  // ----- the operations keep layouts well formed -----

  lemma ReplaceTiled(bs: seq<Block>, h: nat, end: nat, i: nat, j: nat, mid: seq<Block>)
    requires Tiled(bs, h, end) && i < j <= |bs| && |mid| > 0 && mid[0].at == bs[i].at
    requires forall k, l :: 0 <= k < l < |mid| ==> mid[k].at + h <= mid[l].at
    requires forall k :: 0 <= k < |mid| ==> bs[i].at <= mid[k].at && mid[k].at + h <= Next(bs, end, j - 1)
    ensures Tiled(Replace(bs, i, j, mid), h, end)
  {
    var ds := Replace(bs, i, j, mid);
    var m := i + |mid|;
    forall k, l | 0 <= k < l < |ds| ensures ds[k].at + h <= ds[l].at {
      if k < i {
        if l >= m { assert ds[l] == bs[l - m + j]; }
      } else if k < m {
        if l >= m { assert ds[l] == bs[l - m + j]; }
      } else {
        assert ds[k] == bs[k - m + j] && ds[l] == bs[l - m + j];
      }
    }
    forall k | 0 <= k < |ds| ensures ds[k].at + h <= end {
      if k >= m { assert ds[k] == bs[k - m + j]; }
    }
  }

  /** A stretch of free blocks has no live block, no used span, and its payload lacks its headers. */
  lemma {:induction false} FreeRun(bs: seq<Block>, h: nat, stop: int)
    requires |bs| > 0 && forall k :: 0 <= k < |bs| ==> !bs[k].used
    ensures Live(bs, h, stop) == map[]
    ensures Total(bs, stop, true, 0) == 0
    ensures Total(bs, stop, false, h) == stop - bs[0].at - |bs| * h
  {
    if |bs| > 1 {
      FreeRun(bs[..|bs| - 1], h, bs[|bs| - 1].at);
    }
  }

  lemma FreeStretch(bs: seq<Block>, h: nat, lo: nat, hi: nat, stop: int)
    requires lo < hi <= |bs| && forall k :: lo <= k < hi ==> !bs[k].used
    ensures Live(bs[lo..hi], h, stop) == map[]
    ensures Total(bs[lo..hi], stop, true, 0) == 0
    ensures Total(bs[lo..hi], stop, false, h) == stop - bs[lo].at - (hi - lo) * h
  {
    var run := bs[lo..hi];
    assert |run| == hi - lo && run[0] == bs[lo];
    forall k | 0 <= k < |run| ensures !run[k].used {
      assert run[k] == bs[lo + k];
    }
    FreeRun(run, h, stop);
  }

  /** Sums and live blocks of the replacements that leave one used block, perhaps with free space behind it. */
  lemma UsedThenFree(a: nat, size: nat, h: nat, stop: nat)
    ensures var mid := [Block(a, true), Block(a + h + size, false)];
            && Total(mid, stop, true, 0) == size + h
            && Total(mid, stop, false, h) == stop - a - size - 2 * h
            && Live(mid, h, stop) == map[a + h := size]
  {
    var u, f := Block(a, true), Block(a + h + size, false);
    TotalTwo(u, f, stop, true, 0);
    TotalTwo(u, f, stop, false, h);
    LiveTwo(u, f, h, stop);
    LiveOne(u, h, f.at);
    LiveOne(f, h, stop);
  }

  lemma MapPut(m: map<int, int>, p: int, n: int, k: set<int>)
    requires k <= {p}
    ensures (m - k) + map[p := n] == m[p := n]
  {
    var left, right := (m - k) + map[p := n], m[p := n];
    forall q ensures q in left <==> q in right {
    }
    assert left.Keys == right.Keys;
  }

  lemma MapPutDrop(m: map<int, int>, p: int, n: int)
    requires p !in m
    ensures m[p := n] - {p} == m
  {
  }

  lemma MapDrop(m: map<int, int>, k: set<int>)
    ensures (m - k) + map[] == m - k
    ensures k == {} ==> m - k == m
  {
  }

  // ----- allocation -----

  /** Words granted when block i is carved for `size`. */
  ghost function Granted(bs: seq<Block>, h: nat, end: nat, i: nat, size: nat, least: nat): int
    requires i < |bs|
  {
    if Room(bs, h, end, i) >= size + h + least then size else Room(bs, h, end, i)
  }

  lemma CarveTiled(bs: seq<Block>, h: nat, end: nat, i: nat, size: nat, least: nat)
    requires Tiled(bs, h, end) && Coalesced(bs)
    requires i < |bs| && !bs[i].used && Room(bs, h, end, i) >= size
    ensures Tiled(Carve(bs, h, end, i, size, least), h, end) && Coalesced(Carve(bs, h, end, i, size, least))
  {
    var ds := Carve(bs, h, end, i, size, least);
    var taken := Block(bs[i].at, true);
    var mid := if Room(bs, h, end, i) >= size + h + least then [taken, Block(bs[i].at + h + size, false)] else [taken];
    ReplaceTiled(bs, h, end, i, i + 1, mid);
    forall k | 0 <= k < |ds| - 1 ensures ds[k].used || ds[k + 1].used {
      if k > i { assert ds[k] == bs[k - |mid| + 1] || k == i + 1; }
      if k >= i { assert k + 1 >= i + |mid| ==> ds[k + 1] == bs[k + 2 - |mid|]; }
    }
  }

  /** A free block turned into `mid` adds exactly the live blocks of `mid`. */
  lemma FillLive(bs: seq<Block>, h: nat, end: nat, i: nat, mid: seq<Block>, p: int, n: int)
    requires Tiled(bs, h, end) && h > 0 && i < |bs| && !bs[i].used
    requires |mid| > 0 && mid[0].at == bs[i].at
    requires forall k :: 0 <= k < |mid| ==> bs[i].at <= mid[k].at < Next(bs, end, i)
    requires Live(mid, h, Next(bs, end, i)) == map[p := n]
    ensures Live(Replace(bs, i, i + 1, mid), h, end) == Live(bs, h, end)[p := n]
  {
    assert bs[i..i + 1] == [bs[i]];
    FreeRun([bs[i]], h, Next(bs, end, i));
    ReplaceLive(bs, h, end, i, i + 1, mid, {}, map[p := n]);
    MapPut(Live(bs, h, end), p, n, {});
  }

  /** Allocation: the carved block becomes live, nothing else changes. */
  lemma CarveLive(bs: seq<Block>, h: nat, end: nat, i: nat, size: nat, least: nat)
    requires Tiled(bs, h, end) && h > 0
    requires i < |bs| && !bs[i].used && Room(bs, h, end, i) >= size
    ensures bs[i].at + h !in Live(bs, h, end)
    ensures Live(Carve(bs, h, end, i, size, least), h, end)
            == Live(bs, h, end)[bs[i].at + h := Granted(bs, h, end, i, size, least)]
  {
    var stop := Next(bs, end, i);
    var taken := Block(bs[i].at, true);
    BlockLive(bs, h, end, i);
    if Room(bs, h, end, i) >= size + h + least {
      UsedThenFree(bs[i].at, size, h, stop);
      FillLive(bs, h, end, i, [taken, Block(bs[i].at + h + size, false)], bs[i].at + h, size);
    } else {
      LiveOne(taken, h, stop);
      FillLive(bs, h, end, i, [taken], bs[i].at + h, Room(bs, h, end, i));
    }
  }

  lemma CarveTotals(bs: seq<Block>, h: nat, end: nat, i: nat, size: nat, least: nat)
    requires i < |bs| && !bs[i].used && Room(bs, h, end, i) >= size
    ensures var ds, granted := Carve(bs, h, end, i, size, least), Granted(bs, h, end, i, size, least);
            && Total(ds, end, true, 0) == Total(bs, end, true, 0) + granted + h
            && Total(ds, end, false, h) == Total(bs, end, false, h) - granted
                                           - if Room(bs, h, end, i) >= size + h + least then h else 0
  {
    var stop := Next(bs, end, i);
    var taken := Block(bs[i].at, true);
    var split := Room(bs, h, end, i) >= size + h + least;
    var mid := if split then [taken, Block(bs[i].at + h + size, false)] else [taken];
    assert bs[i..i + 1] == [bs[i]] && Start(bs[i + 1..], end) == stop;
    ReplaceTotal(bs, end, i, i + 1, mid, true, 0);
    ReplaceTotal(bs, end, i, i + 1, mid, false, h);
    FreeRun([bs[i]], h, stop);
    UsedThenFree(bs[i].at, size, h, stop);
    TotalOne(taken, stop, true, 0);
    TotalOne(taken, stop, false, h);
  }

  // ----- merging -----

  /** Only the pairs around block i may be two free neighbours. */
  ghost predicate CoalescedBut(bs: seq<Block>, i: nat) {
    forall k :: 0 <= k < |bs| - 1 && k + 1 != i && k != i ==> bs[k].used || bs[k + 1].used
  }

  lemma MergeTiled(bs: seq<Block>, h: nat, end: nat, i: nat)
    requires Tiled(bs, h, end) && i < |bs| && !bs[i].used && CoalescedBut(bs, i)
    ensures Tiled(Merge(bs, i), h, end) && Coalesced(Merge(bs, i))
  {
    var lo, hi := MergeLow(bs, i), MergeHigh(bs, i);
    ReplaceTiled(bs, h, end, lo, hi, [Block(bs[lo].at, false)]);
    var ds := Merge(bs, i);
    forall k | 0 <= k < |ds| - 1 ensures ds[k].used || ds[k + 1].used {
      if k + 1 < lo {
        assert ds[k] == bs[k] && ds[k + 1] == bs[k + 1];
      } else if k + 1 == lo {
        assert ds[k] == bs[k];
      } else {
        assert ds[k + 1] == bs[k - lo + hi];
        if k > lo { assert ds[k] == bs[k - 1 - lo + hi]; }
      }
    }
  }

  /** Merging touches no live block. */
  lemma MergeLive(bs: seq<Block>, h: nat, end: nat, i: nat)
    requires Tiled(bs, h, end) && h > 0 && i < |bs| && !bs[i].used
    ensures Live(Merge(bs, i), h, end) == Live(bs, h, end)
  {
    var lo, hi := MergeLow(bs, i), MergeHigh(bs, i);
    var stop := Next(bs, end, hi - 1);
    var mid := [Block(bs[lo].at, false)];
    assert mid[0].at < stop;
    FreeStretch(bs, h, lo, hi, stop);
    FreeRun(mid, h, stop);
    ReplaceLive(bs, h, end, lo, hi, mid, {}, map[]);
    MapDrop(Live(bs, h, end), {});
  }

  /** Merging turns the headers of the absorbed blocks into payload. */
  lemma MergeTotals(bs: seq<Block>, h: nat, end: nat, i: nat)
    requires i < |bs| && !bs[i].used
    ensures Total(Merge(bs, i), end, true, 0) == Total(bs, end, true, 0)
    ensures Total(Merge(bs, i), end, false, h)
            == Total(bs, end, false, h) + (MergeHigh(bs, i) - MergeLow(bs, i) - 1) * h
  {
    var lo, hi := MergeLow(bs, i), MergeHigh(bs, i);
    var stop := Next(bs, end, hi - 1);
    var mid := [Block(bs[lo].at, false)];
    assert Start(bs[hi..], end) == stop;
    ReplaceTotal(bs, end, lo, hi, mid, true, 0);
    ReplaceTotal(bs, end, lo, hi, mid, false, h);
    FreeStretch(bs, h, lo, hi, stop);
    TotalOne(mid[0], stop, true, 0);
    TotalOne(mid[0], stop, false, h);
    var n := hi - lo;
    assert n * h == (n - 1) * h + h;
  }

  // ----- freeing -----

  /** Clearing the use flag of block i: the step before its neighbours are merged. */
  ghost function Unuse(bs: seq<Block>, i: nat): seq<Block>
    requires i < |bs|
  {
    bs[i := Block(bs[i].at, false)]
  }

  lemma UnuseLive(bs: seq<Block>, h: nat, end: nat, i: nat)
    requires Tiled(bs, h, end) && h > 0 && i < |bs| && bs[i].used
    ensures Live(Unuse(bs, i), h, end) == Live(bs, h, end) - {bs[i].at + h}
  {
    var free := Block(bs[i].at, false);
    var stop := Next(bs, end, i);
    assert Unuse(bs, i) == Replace(bs, i, i + 1, [free]);
    assert bs[i..i + 1] == [bs[i]];
    LiveOne(bs[i], h, stop);
    LiveOne(free, h, stop);
    var live, p := Live(bs, h, end), bs[i].at + h;
    ReplaceLive(bs, h, end, i, i + 1, [free], {p}, map[]);
    MapDrop(live, {p});
  }

  /** Freeing: exactly the freed allocation stops being live. */
  lemma ReleaseLive(bs: seq<Block>, h: nat, end: nat, i: nat)
    requires Tiled(bs, h, end) && h > 0 && i < |bs| && bs[i].used
    ensures Live(Release(bs, i), h, end) == Live(bs, h, end) - {bs[i].at + h}
  {
    UnuseLive(bs, h, end, i);
    MergeLive(Unuse(bs, i), h, end, i);
  }

  lemma ReleaseTotals(bs: seq<Block>, h: nat, end: nat, i: nat)
    requires i < |bs| && bs[i].used
    ensures Total(Release(bs, i), end, true, 0) == Total(bs, end, true, 0) - Room(bs, h, end, i) - h
    ensures Total(Release(bs, i), end, false, h)
            == Total(bs, end, false, h) + Room(bs, h, end, i) + (MergeHigh(bs, i) - MergeLow(bs, i) - 1) * h
  {
    var free := Block(bs[i].at, false);
    var stop := Next(bs, end, i);
    assert Unuse(bs, i) == Replace(bs, i, i + 1, [free]);
    assert bs[i..i + 1] == [bs[i]] && Start(bs[i + 1..], end) == stop;
    ReplaceTotal(bs, end, i, i + 1, [free], true, 0);
    ReplaceTotal(bs, end, i, i + 1, [free], false, h);
    TotalOne(bs[i], stop, true, 0);
    TotalOne(bs[i], stop, false, h);
    FreeRun([free], h, stop);
    MergeTotals(Unuse(bs, i), h, end, i);
    assert MergeLow(Unuse(bs, i), i) == MergeLow(bs, i) && MergeHigh(Unuse(bs, i), i) == MergeHigh(bs, i);
  }

  lemma ReleaseTiled(bs: seq<Block>, h: nat, end: nat, i: nat)
    requires Tiled(bs, h, end) && Coalesced(bs) && i < |bs|
    ensures Tiled(Unuse(bs, i), h, end) && CoalescedBut(Unuse(bs, i), i)
    ensures Tiled(Release(bs, i), h, end) && Coalesced(Release(bs, i))
  {
    MergeTiled(Unuse(bs, i), h, end, i);
  }

  // ----- resizing in place -----

  lemma SplitTiled(bs: seq<Block>, h: nat, end: nat, i: nat, size: nat)
    requires Tiled(bs, h, end) && Coalesced(bs) && i < |bs| && bs[i].used && size + h <= Room(bs, h, end, i)
    ensures Tiled(Split(bs, h, i, size), h, end) && CoalescedBut(Split(bs, h, i, size), i + 1)
    ensures Tiled(Trim(bs, h, i, size), h, end) && Coalesced(Trim(bs, h, i, size))
  {
    hide Tiled;
    var es := Split(bs, h, i, size);
    ReplaceTiled(bs, h, end, i, i + 1, [Block(bs[i].at, true), Block(bs[i].at + h + size, false)]);
    assert forall k :: i + 1 < k < |es| ==> es[k] == bs[k - 1];
    MergeTiled(es, h, end, i + 1);
  }

  lemma SplitLive(bs: seq<Block>, h: nat, end: nat, i: nat, size: nat)
    requires Tiled(bs, h, end) && h > 0 && i < |bs| && bs[i].used && size + h <= Room(bs, h, end, i)
    ensures Live(Split(bs, h, i, size), h, end) == Live(bs, h, end)[bs[i].at + h := size]
  {
    var stop, p := Next(bs, end, i), bs[i].at + h;
    assert bs[i..i + 1] == [bs[i]];
    LiveOne(bs[i], h, stop);
    UsedThenFree(bs[i].at, size, h, stop);
    ReplaceLive(bs, h, end, i, i + 1, [Block(bs[i].at, true), Block(p + size, false)], {p}, map[p := size]);
    MapPut(Live(bs, h, end), p, size, {p});
  }

  /** Shrinking in place: the block keeps its address with exactly `size` words. */
  lemma TrimLive(bs: seq<Block>, h: nat, end: nat, i: nat, size: nat)
    requires Tiled(bs, h, end) && Coalesced(bs) && h > 0 && i < |bs| && bs[i].used && size + h <= Room(bs, h, end, i)
    ensures Live(Trim(bs, h, i, size), h, end) == Live(bs, h, end)[bs[i].at + h := size]
  {
    SplitLive(bs, h, end, i, size);
    SplitTiled(bs, h, end, i, size);
    MergeLive(Split(bs, h, i, size), h, end, i + 1);
  }

  lemma SplitTotals(bs: seq<Block>, h: nat, end: nat, i: nat, size: nat)
    requires i < |bs| && bs[i].used && size + h <= Room(bs, h, end, i)
    ensures Total(Split(bs, h, i, size), end, true, 0) == Total(bs, end, true, 0) - (Room(bs, h, end, i) - size)
    ensures Total(Split(bs, h, i, size), end, false, h) == Total(bs, end, false, h) + Room(bs, h, end, i) - size - h
  {
    var mid := [Block(bs[i].at, true), Block(bs[i].at + h + size, false)];
    var stop := Next(bs, end, i);
    assert bs[i..i + 1] == [bs[i]] && Start(bs[i + 1..], end) == stop;
    ReplaceTotal(bs, end, i, i + 1, mid, true, 0);
    ReplaceTotal(bs, end, i, i + 1, mid, false, h);
    TotalOne(bs[i], stop, true, 0);
    TotalOne(bs[i], stop, false, h);
    UsedThenFree(bs[i].at, size, h, stop);
  }

  lemma TrimTotals(bs: seq<Block>, h: nat, end: nat, i: nat, size: nat)
    requires i < |bs| && bs[i].used && size + h <= Room(bs, h, end, i)
    ensures Total(Trim(bs, h, i, size), end, true, 0) == Total(bs, end, true, 0) - (Room(bs, h, end, i) - size)
    ensures Total(Trim(bs, h, i, size), end, false, h)
            == Total(bs, end, false, h) + Room(bs, h, end, i) - size - if i + 1 < |bs| && !bs[i + 1].used then 0 else h
  {
    hide Total;
    SplitTotals(bs, h, end, i, size);
    SplitNeighbours(bs, h, i, size);
    MergeTotals(Split(bs, h, i, size), h, end, i + 1);
  }

  lemma SplitNeighbours(bs: seq<Block>, h: nat, i: nat, size: nat)
    requires i < |bs|
    ensures var es := Split(bs, h, i, size);
            && |es| == |bs| + 1 && MergeLow(es, i + 1) == i + 1
            && MergeHigh(es, i + 1) == if i + 1 < |bs| && !bs[i + 1].used then i + 3 else i + 2
  {
    var es := Split(bs, h, i, size);
    if i + 1 < |bs| { assert es[i + 2] == bs[i + 1]; }
  }

  lemma GrowTiled(bs: seq<Block>, h: nat, end: nat, i: nat, size: nat)
    requires Tiled(bs, h, end) && Coalesced(bs) && i + 1 < |bs| && bs[i].used && !bs[i + 1].used
    requires size <= Room(bs, h, end, i) + Room(bs, h, end, i + 1)
    ensures Tiled(Grow(bs, h, i, size), h, end) && Coalesced(Grow(bs, h, i, size))
  {
    var ds := Grow(bs, h, i, size);
    ReplaceTiled(bs, h, end, i, i + 2, [Block(bs[i].at, true), Block(bs[i].at + h + size, false)]);
    forall k | 0 <= k < |ds| - 1 ensures ds[k].used || ds[k + 1].used {
      if k >= i + 1 { assert ds[k + 1] == bs[k + 1]; } else if k + 1 == i { assert ds[k + 1].used; }
    }
  }

  /** Growing in place: the block keeps its address, the free block after it pays for it. */
  lemma GrowLive(bs: seq<Block>, h: nat, end: nat, i: nat, size: nat)
    requires Tiled(bs, h, end) && h > 0 && i + 1 < |bs| && bs[i].used && !bs[i + 1].used
    requires size <= Room(bs, h, end, i) + Room(bs, h, end, i + 1)
    ensures Live(Grow(bs, h, i, size), h, end) == Live(bs, h, end)[bs[i].at + h := size]
  {
    hide Live, Tiled;
    var stop, p := Next(bs, end, i + 1), bs[i].at + h;
    assert bs[i..i + 2] == [bs[i], bs[i + 1]];
    LiveTwo(bs[i], bs[i + 1], h, stop);
    LiveOne(bs[i], h, bs[i + 1].at);
    LiveOne(bs[i + 1], h, stop);
    UsedThenFree(bs[i].at, size, h, stop);
    RoomsBehind(bs, h, end, i, size);
    ReplaceLive(bs, h, end, i, i + 2, [Block(bs[i].at, true), Block(p + size, false)], {p}, map[p := size]);
    MapPut(Live(bs, h, end), p, size, {p});
  }

  /** The cut lies within the two blocks. */
  lemma RoomsBehind(bs: seq<Block>, h: nat, end: nat, i: nat, size: nat)
    requires Tiled(bs, h, end) && h > 0 && i + 1 < |bs|
    requires size <= Room(bs, h, end, i) + Room(bs, h, end, i + 1)
    ensures bs[i].at <= bs[i].at + h + size < Next(bs, end, i + 1) && bs[i].at < bs[i + 1].at
  {
  }

  lemma GrowTotals(bs: seq<Block>, h: nat, end: nat, i: nat, size: nat)
    requires i + 1 < |bs| && bs[i].used && !bs[i + 1].used
    ensures Total(Grow(bs, h, i, size), end, true, 0) == Total(bs, end, true, 0) + size - Room(bs, h, end, i)
    ensures Total(Grow(bs, h, i, size), end, false, h) == Total(bs, end, false, h) - (size - Room(bs, h, end, i))
  {
    var mid := [Block(bs[i].at, true), Block(bs[i].at + h + size, false)];
    var stop := Next(bs, end, i + 1);
    assert bs[i..i + 2] == [bs[i], bs[i + 1]] && Start(bs[i + 2..], end) == stop;
    ReplaceTotal(bs, end, i, i + 2, mid, true, 0);
    ReplaceTotal(bs, end, i, i + 2, mid, false, h);
    TotalTwo(bs[i], bs[i + 1], stop, true, 0);
    TotalTwo(bs[i], bs[i + 1], stop, false, h);
    UsedThenFree(bs[i].at, size, h, stop);
  }

  // ----- the live map determines the layout -----

  /** A used block that reaches the sentinel is the last one. */
  lemma ReachesEnd(bs: seq<Block>, h: nat, end: nat, i: nat)
    requires Tiled(bs, h, end) && h > 0 && i < |bs| && Next(bs, end, i) == end
    ensures i == |bs| - 1
  {
  }

  lemma DropLast(bs: seq<Block>, h: nat, end: nat)
    requires Tiled(bs, h, end) && h > 0 && Coalesced(bs) && |bs| > 1
    ensures var cs, last := bs[..|bs| - 1], bs[|bs| - 1];
            && Tiled(cs, h, last.at) && Coalesced(cs)
            && Live(cs, h, last.at) == if last.used then Live(bs, h, end) - {last.at + h} else Live(bs, h, end)
  {
    var cs, last := bs[..|bs| - 1], bs[|bs| - 1];
    LiveWithin(cs, h, last.at, 0, last.at);
    assert last.at + h !in Live(cs, h, last.at);
    if last.used {
      var live := Live(cs, h, last.at);
      assert live[last.at + h := end - last.at - h] - {last.at + h} == live;
    }
  }

  /** The last blocks of two layouts with the same live allocations start at the same address. */
  lemma SameLast(gs: seq<Block>, bs: seq<Block>, h: nat, end: nat)
    requires Tiled(gs, h, end) && Tiled(bs, h, end) && h > 0 && Coalesced(gs) && Coalesced(bs)
    requires Live(gs, h, end) == Live(bs, h, end) && gs[|gs| - 1].used
    ensures gs[|gs| - 1] == bs[|bs| - 1]
  {
    hide Live;
    var n := |gs| - 1;
    BlockLive(gs, h, end, n);
    var k := LiveBlock(bs, h, end, gs[n].at + h);
    ReachesEnd(bs, h, end, k);
  }

  lemma SameFreeLast(gs: seq<Block>, bs: seq<Block>, h: nat, end: nat)
    requires Tiled(gs, h, end) && Tiled(bs, h, end) && h > 0 && Coalesced(gs) && Coalesced(bs)
    requires Live(gs, h, end) == Live(bs, h, end) && !gs[|gs| - 1].used && !bs[|bs| - 1].used
    ensures gs[|gs| - 1].at <= bs[|bs| - 1].at
  {
    hide Live;
    var n, m := |gs| - 1, |bs| - 1;
    if n > 0 {
      assert gs[n - 1].used;
      BlockLive(gs, h, end, n - 1);
      var k := LiveBlock(bs, h, end, gs[n - 1].at + h);
      assert bs[k].at == gs[n - 1].at && k < m && Next(bs, end, k) == gs[n].at;
    }
  }

  /** Layouts without adjacent free blocks are determined by their live allocations. */
  lemma {:induction false} LayoutDetermined(gs: seq<Block>, bs: seq<Block>, h: nat, end: nat)
    requires Tiled(gs, h, end) && Tiled(bs, h, end) && h > 0 && Coalesced(gs) && Coalesced(bs)
    requires Live(gs, h, end) == Live(bs, h, end)
    ensures gs == bs
    decreases |gs|
  {
    hide Live;
    var a, b := gs[|gs| - 1], bs[|bs| - 1];
    if a.used {
      SameLast(gs, bs, h, end);
    } else if b.used {
      SameLast(bs, gs, h, end);
    } else {
      SameFreeLast(gs, bs, h, end);
      SameFreeLast(bs, gs, h, end);
    }
    assert a == b;
    if a.at > 0 {
      DropLast(gs, h, end);
      DropLast(bs, h, end);
      LayoutDetermined(gs[..|gs| - 1], bs[..|bs| - 1], h, a.at);
      assert gs == gs[..|gs| - 1] + [a] && bs == bs[..|bs| - 1] + [b];
    } else {
      assert |gs| == 1 && |bs| == 1;
    }
  }

  lemma CarvedUsed(bs: seq<Block>, h: nat, end: nat, i: nat, size: nat, least: nat)
    requires i < |bs|
    ensures var ds := Carve(bs, h, end, i, size, least);
            i < |ds| && ds[i] == Block(bs[i].at, true)
  {
  }

  lemma CarveReleaseLive(bs: seq<Block>, h: nat, end: nat, i: nat, size: nat, least: nat)
    requires Tiled(bs, h, end) && Coalesced(bs) && h > 0
    requires i < |bs| && !bs[i].used && Room(bs, h, end, i) >= size
    ensures var ds := Carve(bs, h, end, i, size, least);
            && i < |ds| && ds[i] == Block(bs[i].at, true) && Tiled(ds, h, end) && Coalesced(ds)
            && Live(Release(ds, i), h, end) == Live(bs, h, end)
  {
    hide *;
    var ds := Carve(bs, h, end, i, size, least);
    CarveTiled(bs, h, end, i, size, least);
    CarveLive(bs, h, end, i, size, least);
    CarvedUsed(bs, h, end, i, size, least);
    ReleaseLive(ds, h, end, i);
    MapPutDrop(Live(bs, h, end), bs[i].at + h, Granted(bs, h, end, i, size, least));
  }

  /** Freeing what was just allocated restores the layout. */
  lemma CarveReleaseRestores(bs: seq<Block>, h: nat, end: nat, i: nat, size: nat, least: nat)
    requires Tiled(bs, h, end) && Coalesced(bs) && h > 0
    requires i < |bs| && !bs[i].used && Room(bs, h, end, i) >= size
    ensures i < |Carve(bs, h, end, i, size, least)| && Release(Carve(bs, h, end, i, size, least), i) == bs
  {
    hide *;
    CarveReleaseLive(bs, h, end, i, size, least);
    ReleaseTiled(Carve(bs, h, end, i, size, least), h, end, i);
    LayoutDetermined(Release(Carve(bs, h, end, i, size, least), i), bs, h, end);
  }
}
