/** What the heap operations do to the words in their buffer, for headers of `h` words. */
module Contents {
  import opened Tiling

  /** The payload words of used blocks are the same in both buffers. */
  ghost predicate Unchanged(w: seq<int>, v: seq<int>, bs: seq<Block>, h: nat, end: nat) {
    |w| == |v| && forall i, q :: 0 <= i < |bs| && bs[i].used && bs[i].at + h <= q < Next(bs, end, i) && q < |w| ==>
      w[q] == v[q]
  }

  /** Every live payload reads the same in both buffers. */
  ghost predicate Keeps(w: seq<int>, v: seq<int>, live: map<int, int>) {
    |w| == |v| && forall p :: p in live ==> 0 <= p <= p + live[p] <= |w| && w[p..p + live[p]] == v[p..p + live[p]]
  }

  lemma UntouchedKeeps(w: seq<int>, v: seq<int>, bs: seq<Block>, h: nat, end: nat)
    requires Tiled(bs, h, end) && |w| >= end && Unchanged(w, v, bs, h, end)
    ensures Keeps(w, v, Live(bs, h, end))
  {
    hide Tiled, Unchanged, Live, Room;
    var live := Live(bs, h, end);
    assert |w| == |v| by { SameLength(w, v, bs, h, end); }
    forall p | p in live ensures 0 <= p <= p + live[p] <= |w| && w[p..p + live[p]] == v[p..p + live[p]] {
      var i := LiveItem(bs, h, end, p);
      UntouchedAt(w, v, bs, h, end, i);
    }
  }

  lemma SameLength(w: seq<int>, v: seq<int>, bs: seq<Block>, h: nat, end: nat)
    requires Unchanged(w, v, bs, h, end)
    ensures |w| == |v|
  {
  }

  lemma UntouchedAt(w: seq<int>, v: seq<int>, bs: seq<Block>, h: nat, end: nat, i: nat)
    requires Tiled(bs, h, end) && |w| >= end && Unchanged(w, v, bs, h, end) && i < |bs| && bs[i].used
    ensures var p, n := bs[i].at + h, Room(bs, h, end, i);
            p <= p + n <= |w| == |v| && w[p..p + n] == v[p..p + n]
  {
  }

  ghost function MergedForward(bs: seq<Block>, i: nat): seq<Block>
    requires i < |bs|
  {
    if i + 1 < |bs| && !bs[i + 1].used then Replace(bs, i, i + 2, [bs[i]]) else bs
  }

  ghost function MergedBackward(bs: seq<Block>, i: nat): seq<Block>
    requires i < |bs|
  {
    if i > 0 && !bs[i - 1].used then Replace(bs, i - 1, i + 1, [bs[i - 1]]) else bs
  }

  /** Payloads kept after two free blocks became one were kept before. */
  lemma MergedUnchanged(w: seq<int>, v: seq<int>, bs: seq<Block>, h: nat, end: nat, i: nat)
    requires i + 1 < |bs| && !bs[i].used && !bs[i + 1].used
    requires Unchanged(w, v, Replace(bs, i, i + 2, [bs[i]]), h, end)
    ensures Unchanged(w, v, bs, h, end)
  {
    var ds := Replace(bs, i, i + 2, [bs[i]]);
    forall k, q | 0 <= k < |bs| && bs[k].used && bs[k].at + h <= q < Next(bs, end, k) && q < |w| ensures w[q] == v[q] {
      var j := if k > i then k - 1 else k;
      assert ds[j] == bs[k] && Next(ds, end, j) == Next(bs, end, k);
    }
  }

  /** Merging forward, then backward, is the merge of the layout ... */
  lemma MergeSteps(bs: seq<Block>, i: nat)
    requires i < |bs| && !bs[i].used
    ensures MergedBackward(MergedForward(bs, i), i) == Merge(bs, i)
  {
    var ds, hi := MergedForward(bs, i), MergeHigh(bs, i);
    assert i < |ds| && ds[i] == bs[i] == Block(bs[i].at, false) && ds[i + 1..] == bs[hi..] && ds[..i] == bs[..i];
    if i > 0 && !bs[i - 1].used {
      assert ds[i - 1] == bs[i - 1] == Block(bs[i - 1].at, false) && ds[..i - 1] == bs[..i - 1];
    } else {
      assert ds == bs[..i] + [bs[i]] + bs[hi..];
    }
  }

  /** ... and so is merging backward, then forward. */
  lemma MergeStepsBack(bs: seq<Block>, i: nat)
    requires i < |bs| && !bs[i].used
    ensures var es, j := MergedBackward(bs, i), MergeLow(bs, i);
            && j < |es| && !es[j].used && es[j].at == bs[j].at && MergedForward(es, j) == Merge(bs, i)
            && j < |Merge(bs, i)| && Merge(bs, i)[j] == es[j]
            && (i - j) + (MergeHigh(es, j) - j - 1) == |bs| - |Merge(bs, i)|
            && (j + 1 < |es| && !es[j + 1].used <==> i + 1 < |bs| && !bs[i + 1].used)
            && (j + 1 < |es| ==> i + 1 < |bs| && es[j + 1] == bs[i + 1])
  {
    var es, j, hi := MergedBackward(bs, i), MergeLow(bs, i), MergeHigh(bs, i);
    assert es[..j] == bs[..j] && es[j + 1..] == bs[i + 1..];
    assert es[MergeHigh(es, j)..] == bs[hi..];
  }

  /** Payloads kept by the three steps of a release: merging backward, merging forward, listing. */
  lemma MergeBothUnchanged(w: seq<int>, v: seq<int>, x: seq<int>, y: seq<int>, bs: seq<Block>, h: nat, end: nat, i: nat)
    requires i < |bs| && !bs[i].used && MergeLow(bs, i) < |MergedBackward(bs, i)|
    requires !MergedBackward(bs, i)[MergeLow(bs, i)].used
    requires Unchanged(w, v, bs, h, end) && Unchanged(v, x, MergedBackward(bs, i), h, end)
    requires Unchanged(x, y, MergedForward(MergedBackward(bs, i), MergeLow(bs, i)), h, end)
    ensures Unchanged(w, y, bs, h, end)
  {
    hide Unchanged;
    ForwardThenUnchanged(v, x, y, MergedBackward(bs, i), h, end, MergeLow(bs, i));
    if i > 0 && !bs[i - 1].used {
      MergedUnchanged(v, y, bs, h, end, i - 1);
    }
    UnchangedTwice(w, v, y, bs, h, end);
  }

  /** A block grown in place still holds its old payload. */
  lemma GrownUnchanged(w: seq<int>, v: seq<int>, bs: seq<Block>, h: nat, end: nat, i: nat, size: nat)
    requires i + 1 < |bs| && bs[i].used && !bs[i + 1].used && Room(bs, h, end, i) <= size
    requires Unchanged(w, v, Grow(bs, h, i, size), h, end)
    ensures Unchanged(w, v, bs, h, end)
  {
    var ds := Grow(bs, h, i, size);
    forall k, q | 0 <= k < |bs| && bs[k].used && bs[k].at + h <= q < Next(bs, end, k) && q < |w| ensures w[q] == v[q] {
      assert ds[k] == bs[k] && (k != i ==> Next(ds, end, k) == Next(bs, end, k))
        && Next(ds, end, i) == bs[i].at + h + size;
    }
  }

  lemma UnchangedSelf(w: seq<int>, bs: seq<Block>, h: nat, end: nat)
    ensures Unchanged(w, w, bs, h, end)
  {
  }

  /** Payloads kept by a merge and by what follows are kept by both together. */
  lemma ForwardThenUnchanged(w: seq<int>, v: seq<int>, x: seq<int>, bs: seq<Block>, h: nat, end: nat, i: nat)
    requires i < |bs| && !bs[i].used
    requires Unchanged(w, v, bs, h, end) && Unchanged(v, x, MergedForward(bs, i), h, end)
    ensures Unchanged(w, x, bs, h, end)
  {
    var ds := MergedForward(bs, i);
    forall k, q | 0 <= k < |bs| && bs[k].used && bs[k].at + h <= q < Next(bs, end, k) && q < |w| ensures w[q] == x[q] {
      var j := if |ds| < |bs| && k > i then k - 1 else k;
      assert ds[j] == bs[k] && Next(ds, end, j) == Next(bs, end, k);
    }
  }

  /** Blocks after block i took over the one behind it. */
  lemma AbsorbIndex(bs: seq<Block>, i: nat, k: nat)
    requires i + 1 < |bs| && k < |bs| - 1
    ensures var ds := Replace(bs, i, i + 2, [bs[i]]);
            |ds| == |bs| - 1 && ds[k] == bs[if k > i then k + 1 else k]
  {
  }

  /** A free header written behind the first `size` words of block i. */
  ghost function CutLayout(bs: seq<Block>, h: nat, i: nat, size: nat): seq<Block>
    requires i < |bs|
  {
    Replace(bs, i, i + 1, [bs[i], Block(bs[i].at + h + size, false)])
  }

  lemma CutIndex(bs: seq<Block>, h: nat, i: nat, size: nat, k: nat)
    requires i < |bs| && k <= |bs|
    ensures var ds := CutLayout(bs, h, i, size);
            |ds| == |bs| + 1 && ds[k] == if k == i + 1 then Block(bs[i].at + h + size, false)
              else bs[if k > i then k - 1 else k]
  {
  }

  /** Cutting a free block leaves every payload, and so does marking its first part used. */
  lemma CutKeepsUsed(w: seq<int>, v: seq<int>, x: seq<int>, bs: seq<Block>, h: nat, end: nat, i: nat, size: nat)
    requires i < |bs| && !bs[i].used
    requires Unchanged(w, v, CutLayout(bs, h, i, size), h, end) && Unchanged(v, x, CutLayout(bs, h, i, size), h, end)
    ensures Unchanged(w, x, bs, h, end)
  {
    var ds := CutLayout(bs, h, i, size);
    forall k, q | 0 <= k < |bs| && bs[k].used && bs[k].at + h <= q < Next(bs, end, k) && q < |w| ensures w[q] == x[q] {
      var j := if k > i then k + 1 else k;
      assert ds[j] == bs[k] && Next(ds, end, j) == Next(bs, end, k);
    }
  }

  lemma UnuseUnchanged(w: seq<int>, v: seq<int>, x: seq<int>, bs: seq<Block>, h: nat, end: nat, i: nat)
    requires i < |bs| && Unchanged(w, v, bs, h, end) && Unchanged(v, x, Unuse(bs, i), h, end)
    ensures Unchanged(w, x, Unuse(bs, i), h, end)
  {
    var ds := Unuse(bs, i);
    forall k, q | 0 <= k < |ds| && ds[k].used && ds[k].at + h <= q < Next(ds, end, k) && q < |w| ensures w[q] == x[q] {
      assert ds[k] == bs[k] && Next(ds, end, k) == Next(bs, end, k);
    }
  }

  lemma UnchangedTwice(w: seq<int>, v: seq<int>, x: seq<int>, bs: seq<Block>, h: nat, end: nat)
    requires Unchanged(w, v, bs, h, end) && Unchanged(v, x, bs, h, end)
    ensures Unchanged(w, x, bs, h, end)
  {
  }

  lemma TrimKeeps(w: seq<int>, v: seq<int>, x: seq<int>, bs: seq<Block>, h: nat, end: nat, i: nat, size: nat)
    requires Tiled(bs, h, end) && Coalesced(bs) && h > 0 && i < |bs| && bs[i].used && size + h <= Room(bs, h, end, i)
    requires |w| >= end && Unchanged(w, v, CutLayout(bs, h, i, size), h, end)
             && Unchanged(v, x, CutLayout(bs, h, i, size), h, end)
    ensures Keeps(w, x, Live(Trim(bs, h, i, size), h, end))
  {
    SplitTiled(bs, h, end, i, size);
    hide Tiled, Live, Merge, Unchanged, Keeps;
    MergeLive(Split(bs, h, i, size), h, end, i + 1);
    UnchangedTwice(w, v, x, CutLayout(bs, h, i, size), h, end);
    UntouchedKeeps(w, x, Split(bs, h, i, size), h, end);
  }

  lemma ReleaseKeeps(w: seq<int>, v: seq<int>, x: seq<int>, bs: seq<Block>, h: nat, end: nat, i: nat)
    requires Tiled(bs, h, end) && Coalesced(bs) && h > 0 && i < |bs| && bs[i].used && |w| >= end
    requires Unchanged(w, v, bs, h, end) && Unchanged(v, x, Unuse(bs, i), h, end)
    ensures Keeps(w, x, Live(Release(bs, i), h, end))
  {
    UnuseUnchanged(w, v, x, bs, h, end, i);
    ReleaseTiled(bs, h, end, i);
    UntouchedKeeps(w, x, Unuse(bs, i), h, end);
    MergeLive(Unuse(bs, i), h, end, i);
  }

  /** What freeing block i does to the layout. */
  lemma ReleaseFacts(bs: seq<Block>, h: nat, end: nat, i: nat)
    requires Tiled(bs, h, end) && Coalesced(bs) && h > 0 && i < |bs| && bs[i].used
    ensures Coalesced(Release(bs, i)) && bs[i].at <= Next(bs, end, i)
    ensures Live(Release(bs, i), h, end) == Live(bs, h, end) - {bs[i].at + h}
    ensures Total(Release(bs, i), end, true, 0) == Total(bs, end, true, 0) - (Next(bs, end, i) - bs[i].at) >= 0
  {
    TotalBounds(bs, 0, end, i);
    ReleaseTiled(bs, h, end, i);
    ReleaseLive(bs, h, end, i);
    ReleaseTotals(bs, h, end, i);
  }

  /** What shrinking block i in place does to the layout. */
  lemma TrimFacts(bs: seq<Block>, h: nat, end: nat, i: nat, size: nat)
    requires Tiled(bs, h, end) && Coalesced(bs) && h > 0 && i < |bs| && bs[i].used && size + h <= Room(bs, h, end, i)
    ensures CutLayout(bs, h, i, size) == Split(bs, h, i, size) && Coalesced(Trim(bs, h, i, size))
    ensures Live(Trim(bs, h, i, size), h, end) == Live(bs, h, end)[bs[i].at + h := size]
    ensures Total(Trim(bs, h, i, size), end, true, 0) == Total(bs, end, true, 0) - (Room(bs, h, end, i) - size) >= 0
  {
    TotalBounds(bs, 0, end, i);
    hide Tiled, Coalesced, Live, Total, Trim;
    SplitTiled(bs, h, end, i, size);
    TrimLive(bs, h, end, i, size);
    TrimTotals(bs, h, end, i, size);
  }

  /** A block left one address for another and got at least `want` words there. */
  ghost predicate Moved(live: map<int, int>, now: map<int, int>, rmem: int, r: int, want: nat) {
    r !in live && r in now && now[r] >= want && now == live[r := now[r]] - {rmem}
  }

  /** The first n words at `from` in the old buffer are at `to` in the new one. */
  ghost predicate Copied(w: seq<int>, v: seq<int>, from: int, to: int, n: nat) {
    && 0 <= from && from + n <= |w| && 0 <= to && to + n <= |v|
    && v[to..to + n] == w[from..from + n]
  }

  /** Word by word. */
  lemma CopiedWords(w: seq<int>, v: seq<int>, from: int, to: int, n: nat)
    requires Copied(w, v, from, to, n)
    ensures 0 <= from && from + n <= |w| && 0 <= to && to + n <= |v|
    ensures forall q :: from <= q < from + n ==> w[q] == v[to + (q - from)]
  {
    forall q | from <= q < from + n ensures w[q] == v[to + (q - from)] {
      assert w[from..from + n][q - from] == v[to..to + n][q - from];
    }
  }

  /** Block r, new or resized, is live, and apart from it and block p nothing has changed. */
  ghost predicate OnlyChanged(live: map<int, int>, now: map<int, int>, p: int, r: int) {
    r in now && (r == p || r !in live) && now == (live - {p})[r := now[r]]
  }

  lemma OnlyOwner(live: map<int, int>, now: map<int, int>, p: int, r: int)
    requires OnlyChanged(live, now, p, r)
    ensures r in now
  {
  }

  /** No live payload is empty, so a payload address is always below the sentinel. */
  ghost predicate Positive(live: map<int, int>) {
    forall p :: p in live ==> live[p] >= 1
  }

  lemma LiveInside(bs: seq<Block>, h: nat, end: nat)
    requires Tiled(bs, h, end) && Positive(Live(bs, h, end))
    ensures forall p :: p in Live(bs, h, end) ==> h <= p < end
  {
    forall p | p in Live(bs, h, end) ensures h <= p < end {
      var i := LiveBlock(bs, h, end, p);
    }
  }

  /** Words both the old and the new block hold. */
  ghost function Carried(bs: seq<Block>, h: nat, end: nat, p: int, newsize: nat): nat
    requires p in Live(bs, h, end)
  {
    var size := Live(bs, h, end)[p];
    if size < 0 then 0 else if size < newsize then size else newsize
  }

  /** Distinct used blocks have disjoint payloads. */
  lemma LiveApart(bs: seq<Block>, h: nat, end: nat, i: nat, k: nat)
    requires Tiled(bs, h, end) && i < |bs| && k < |bs| && i != k
    ensures Next(bs, end, i) <= bs[k].at || Next(bs, end, k) <= bs[i].at
  {
  }

  lemma CopyKeeps(w: seq<int>, v: seq<int>, bs: seq<Block>, h: nat, end: nat, i: nat)
    requires Tiled(bs, h, end) && |w| >= end && i < |bs| && bs[i].used && |w| == |v|
    requires forall q :: 0 <= q < |w| && !(bs[i].at + h <= q < Next(bs, end, i)) ==> w[q] == v[q]
    ensures Keeps(w, v, Live(bs, h, end) - {bs[i].at + h})
  {
    var live := Live(bs, h, end);
    forall p | p in live && p != bs[i].at + h
      ensures 0 <= p <= p + live[p] <= |w| && w[p..p + live[p]] == v[p..p + live[p]]
    {
      var k := LiveBlock(bs, h, end, p);
      LiveApart(bs, h, end, i, k);
    }
  }

  /** Allocation, copy and release together keep the other blocks and carry the first n words over. */
  lemma MoveKeeps(w: seq<int>, v: seq<int>, x: seq<int>, y: seq<int>, live: map<int, int>, now: map<int, int>,
      rmem: int, r: int, n: nat)
    requires rmem in live && r !in live && r in now && now == live[r := now[r]]
    requires n <= live[rmem] && n <= now[r]
    requires Keeps(w, v, live) && Keeps(v, x, now - {r}) && Keeps(x, y, now - {rmem}) && Copied(v, x, rmem, r, n)
    ensures Keeps(w, y, live - {rmem}) && Copied(w, y, rmem, r, n)
  {
    hide Keeps;
    KeepsAt(w, v, live, rmem, n);
    assert rmem in now - {r} && r in now - {rmem};
    KeepsAt(v, x, now - {r}, rmem, n);
    KeepsAt(x, y, now - {rmem}, r, n);
    forall p | p in live - {rmem} ensures Same(w, y, p, live[p]) {
      assert p in live && p in now - {r} && p in now - {rmem};
      KeepsAt(w, v, live, p, live[p]);
      KeepsAt(v, x, now - {r}, p, live[p]);
      KeepsAt(x, y, now - {rmem}, p, live[p]);
    }
    KeepsIf(w, y, live - {rmem});
  }

  /** The n words at p are the same. */
  ghost predicate Same(w: seq<int>, v: seq<int>, p: int, n: int) {
    0 <= p <= p + n <= |w| == |v| && w[p..p + n] == v[p..p + n]
  }

  lemma KeepsAt(w: seq<int>, v: seq<int>, live: map<int, int>, p: int, n: int)
    requires Keeps(w, v, live) && p in live && (n == live[p] || 0 <= n <= live[p])
    ensures Same(w, v, p, n)
  {
    assert w[p..p + n] == w[p..p + live[p]][..n] && v[p..p + n] == v[p..p + live[p]][..n];
  }

  lemma KeepsIf(w: seq<int>, v: seq<int>, live: map<int, int>)
    requires |w| == |v| && forall p :: p in live ==> Same(w, v, p, live[p])
    ensures Keeps(w, v, live)
  {
  }

  lemma ShrinkKeeps(w: seq<int>, v: seq<int>, live: map<int, int>, p: int, n: nat)
    requires p in live && Keeps(w, v, live[p := n])
    ensures Keeps(w, v, live - {p}) && Copied(w, v, p, p, n)
  {
    assert p in live[p := n] && live[p := n][p] == n;
    forall q | q in live - {p}
      ensures 0 <= q <= q + live[q] <= |w| && w[q..q + live[q]] == v[q..q + live[q]]
    {
      assert q in live[p := n];
    }
  }

  /** A block whose payload is kept still holds its first n words. */
  lemma KeepsCopied(w: seq<int>, v: seq<int>, live: map<int, int>, p: int, n: nat)
    requires p in live && n <= live[p] && Keeps(w, v, live)
    ensures Keeps(w, v, live - {p}) && Copied(w, v, p, p, n)
  {
    assert w[p..p + n] == w[p..p + live[p]][..n];
    assert v[p..p + n] == v[p..p + live[p]][..n];
  }

  /** What a live allocation knows about its block. */
  lemma LiveItem(bs: seq<Block>, h: nat, end: nat, p: int) returns (i: nat)
    requires Tiled(bs, h, end) && p in Live(bs, h, end)
    ensures i < |bs| && bs[i].used && bs[i].at + h == p && Live(bs, h, end)[p] == Room(bs, h, end, i) >= 0
  {
    i := LiveBlock(bs, h, end, p);
  }

  lemma KeepsFewer(w: seq<int>, v: seq<int>, live: map<int, int>, p: int)
    requires Keeps(w, v, live)
    ensures Keeps(w, v, live - {p})
  {
  }

  /** Two live payloads do not overlap. */
  lemma LivePair(bs: seq<Block>, h: nat, end: nat, p: int, q: int) returns (i: nat)
    requires Tiled(bs, h, end) && p in Live(bs, h, end) && q in Live(bs, h, end) && p != q
    ensures i < |bs| && bs[i].used && p == bs[i].at + h && p + Live(bs, h, end)[p] == Next(bs, end, i) <= end
    ensures 0 <= q && q + Live(bs, h, end)[q] <= end
    ensures q + Live(bs, h, end)[q] <= p || p + Live(bs, h, end)[p] <= q
  {
    i := LiveBlock(bs, h, end, p);
    var k := LiveBlock(bs, h, end, q);
    LiveApart(bs, h, end, i, k);
  }

  /** v differs from w at offsets a and b at most. */
  ghost predicate SameBut(w: seq<int>, v: seq<int>, a: int, b: int) {
    |w| == |v| && forall q :: 0 <= q < |w| && q != a && q != b ==> w[q] == v[q]
  }

  /** rt_memcpy of n words between stretches that do not overlap. */
  method Memcpy(mem: array<int>, dst: nat, src: nat, n: nat)
    requires dst + n <= mem.Length && src + n <= mem.Length && (src + n <= dst || dst + n <= src)
    modifies mem
    ensures Copied(old(mem[..]), mem[..], src, dst, n)
    ensures forall q :: 0 <= q < mem.Length && !(dst <= q < dst + n) ==> mem[q] == old(mem[q])
  {
    for k := 0 to n
      invariant forall q :: 0 <= q < mem.Length && !(dst <= q < dst + k) ==> mem[q] == old(mem[q])
      invariant forall q :: dst <= q < dst + k ==> mem[q] == old(mem[q - dst + src])
    {
      mem[dst + k] := mem[src + k];
    }
    ghost var got, sent := mem[dst..dst + n], old(mem[src..src + n]);
    forall q | 0 <= q < n ensures got[q] == sent[q] {
      assert got[q] == mem[dst + q];
    }
  }
}
