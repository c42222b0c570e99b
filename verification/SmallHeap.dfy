/** RT-Thread's small-memory heap: first fit over a list of blocks that tile the heap, with split,
    coalescing and a pointer to the lowest free block. */
module SmallHeap {
  import opened Basics
  import opened Tiling

  const ALIGN := 8
  const HEADER := 16          // SIZEOF_STRUCT_MEM
  const MIN_SIZE := 12
  const MIN_ALIGNED := 16

  datatype Heap = Heap(memSize: nat, blocks: seq<Block>, lfree: nat, usedMem: int)

  function End(h: Heap): nat { h.memSize + HEADER }
  function Align(n: nat): nat { (n + ALIGN - 1) / ALIGN * ALIGN }

  // ----- the invariant -----

  predicate OnGrid(n: nat) { n % ALIGN == 0 }

  ghost predicate Grid(bs: seq<Block>) { forall i :: 0 <= i < |bs| ==> OnGrid(bs[i].at) }

  /** Total span of the used blocks. */
  function UsedSpan(bs: seq<Block>, end: nat): int { Sum(bs, 0, end, true, 0) }

  /** `lfree` names a free block or the end. */
  ghost predicate LfreeOk(bs: seq<Block>, lfree: nat, end: nat) {
    lfree == end || exists i :: 0 <= i < |bs| && bs[i].at == lfree && !bs[i].used
  }

  /** No free block lies below `lfree`. */
  ghost predicate Lowest(bs: seq<Block>, lfree: nat) {
    forall i :: 0 <= i < |bs| && !bs[i].used ==> lfree <= bs[i].at
  }

  ghost predicate Inv(h: Heap) {
    && Tiled(h.blocks, End(h)) && Grid(h.blocks) && Coalesced(h.blocks)
    && h.usedMem == UsedSpan(h.blocks, End(h)) && LfreeOk(h.blocks, h.lfree, End(h))
  }

  // ----- the operations -----

  /** The first-fit loop of rt_malloc from block `i` on. */
  function FindFit(bs: seq<Block>, i: nat, size: nat, limit: nat, end: nat): (r: Option<nat>)
    ensures r.Some? ==> i <= r.value < |bs|
    decreases |bs| - i
  {
    if i >= |bs| || bs[i].at >= limit then None
    else if !bs[i].used && NextAt(bs, i, end) - (bs[i].at + HEADER) >= size then Some(i)
    else FindFit(bs, i + 1, size, limit, end)
  }

  /** The first free block at or after index `i`, or the end. */
  function NextFree(bs: seq<Block>, i: nat, end: nat): nat
    decreases |bs| - i
  {
    if i >= |bs| then end else if !bs[i].used then bs[i].at else NextFree(bs, i + 1, end)
  }

  predicate Splits(h: Heap, j: nat, size: nat)
    requires j < |h.blocks|
  {
    NextAt(h.blocks, j, End(h)) - (h.blocks[j].at + HEADER) >= size + HEADER + MIN_ALIGNED
  }

  /** rt_malloc once block `j` is found. */
  function TakeBlock(h: Heap, j: nat, size: nat): Heap
    requires j < |h.blocks|
  {
    var at := h.blocks[j].at;
    var split := Splits(h, j, size);
    var bs := if split then SplitAt(h.blocks, j, at + HEADER + size, true) else h.blocks[j := Block(at, true)];
    h.(blocks := bs, lfree := if at == h.lfree then NextFree(bs, j, End(h)) else h.lfree,
       usedMem := h.usedMem + if split then size + HEADER else NextAt(h.blocks, j, End(h)) - at)
  }

  function Wanted(size: nat): nat { if Align(size) < MIN_ALIGNED then MIN_ALIGNED else Align(size) }

  /** rt_malloc: the heap afterwards and the index of the block handed out. The heap is at least
      MIN_ALIGNED long, so the loop bound does not wrap. */
  function Malloc(h: Heap, size: nat): (Heap, Option<nat>)
    requires h.memSize >= MIN_ALIGNED
  {
    if size == 0 || Align(size) > h.memSize then (h, None)
    else
      var j := FindFit(h.blocks, IndexOf(h.blocks, h.lfree), Wanted(size), h.memSize - Wanted(size), End(h));
      if j.None? then (h, None) else (TakeBlock(h, j.value, Wanted(size)), j)
  }

  /** Block `k` absorbs its successor; `lfree` follows. */
  function Join(h: Heap, k: nat): Heap
    requires k + 1 < |h.blocks|
  {
    h.(lfree := if h.lfree == h.blocks[k + 1].at then h.blocks[k].at else h.lfree, blocks := Remove(h.blocks, k + 1))
  }

  /** plug_holes, forward half. */
  function PlugForward(h: Heap, j: nat): Heap
    requires j < |h.blocks|
  {
    if j + 1 < |h.blocks| && !h.blocks[j + 1].used then Join(h, j) else h
  }

  /** plug_holes, backward half. */
  function PlugBackward(h: Heap, j: nat): Heap
    requires j < |h.blocks|
  {
    if j > 0 && !h.blocks[j - 1].used then Join(h, j - 1) else h
  }

  function PlugHoles(h: Heap, j: nat): Heap
    requires j < |h.blocks|
  {
    PlugBackward(PlugForward(h, j), j)
  }

  function Release(h: Heap, j: nat): Heap
    requires j < |h.blocks|
  {
    var at := h.blocks[j].at;
    h.(blocks := h.blocks[j := Block(at, false)], lfree := if at < h.lfree then at else h.lfree,
       usedMem := h.usedMem - (NextAt(h.blocks, j, End(h)) - at))
  }

  /** rt_free of the payload of block `j`. */
  function Free(h: Heap, j: nat): Heap
    requires j < |h.blocks|
  {
    PlugHoles(Release(h, j), j)
  }

  /** rt_realloc, the shrinking branch. */
  predicate Shrinks(h: Heap, j: nat, size: nat)
    requires j < |h.blocks|
  {
    size + HEADER + MIN_SIZE < NextAt(h.blocks, j, End(h)) - h.blocks[j].at - HEADER
  }

  function Shrink(h: Heap, j: nat, size: nat): Heap
    requires j < |h.blocks|
  {
    var at := h.blocks[j].at;
    PlugHoles(h.(blocks := SplitAt(h.blocks, j, at + HEADER + size, true),
                 usedMem := h.usedMem - (NextAt(h.blocks, j, End(h)) - at - HEADER - size)), j + 1)
  }

  /** rt_realloc of the payload of block `j`; the result is the offset of the block to use. */
  function Realloc(h: Heap, j: nat, newSize: nat): (Heap, Option<nat>)
    requires h.memSize >= MIN_ALIGNED && j < |h.blocks|
  {
    var size := Align(newSize);
    if size > h.memSize then (h, None)
    else if size == 0 then (Free(h, j), None)
    else if NextAt(h.blocks, j, End(h)) - h.blocks[j].at - HEADER == size then (h, Some(h.blocks[j].at))
    else if Shrinks(h, j, size) then (Shrink(h, j, size), Some(h.blocks[j].at))
    else
      var (g, r) := Malloc(h, size);
      if r.None? then (g, None)
      else
        var i := IndexOf(g.blocks, h.blocks[j].at);
        (if i < |g.blocks| then Free(g, i) else g, Some(g.blocks[r.value].at))
  }

  // ----- searching -----

  lemma {:induction false} NextFreeOk(bs: seq<Block>, i: nat, end: nat)
    requires Tiled(bs, end)
    ensures LfreeOk(bs, NextFree(bs, i, end), end)
    ensures forall k :: i <= k < |bs| && !bs[k].used ==> NextFree(bs, i, end) <= bs[k].at
    decreases |bs| - i
  {
    hide Tiled;
    if i < |bs| {
      if bs[i].used {
        NextFreeOk(bs, i + 1, end);
      } else {
        forall k | i <= k < |bs| ensures bs[i].at <= bs[k].at { if i < k { Increasing(bs, end, i, k); } }
      }
    }
  }

  predicate Fits(bs: seq<Block>, k: nat, size: nat, end: nat)
    requires k < |bs|
  {
    !bs[k].used && NextAt(bs, k, end) - (bs[k].at + HEADER) >= size
  }

  /** First fit: the first block from `i` on that fits and starts below the limit. */
  lemma {:induction false} FindFitOk(bs: seq<Block>, i: nat, size: nat, limit: nat, end: nat)
    requires Tiled(bs, end)
    ensures var r := FindFit(bs, i, size, limit, end);
      && (r.Some? ==> Fits(bs, r.value, size, end) && bs[r.value].at < limit
                      && forall k :: i <= k < r.value ==> !Fits(bs, k, size, end))
      && (r.None? ==> forall k :: i <= k < |bs| && bs[k].at < limit ==> !Fits(bs, k, size, end))
    decreases |bs| - i
  {
    hide Tiled;
    if i < |bs| {
      if bs[i].at >= limit {
        forall k | i <= k < |bs| ensures bs[k].at >= limit { if i < k { Increasing(bs, end, i, k); } }
      } else if !Fits(bs, i, size, end) {
        FindFitOk(bs, i + 1, size, limit, end);
      }
    }
  }

  /** The search starts at `lfree`: every block before it lies below. */
  lemma StartAt(h: Heap, k: nat)
    requires Inv(h) && k < |h.blocks|
    ensures IndexOf(h.blocks, h.lfree) <= k <==> h.lfree <= h.blocks[k].at
  {
    var s := IndexOf(h.blocks, h.lfree);
    IndexFound(h.blocks, h.lfree);
    BelowEnd(h.blocks, End(h), k);
    if s < k { Increasing(h.blocks, End(h), s, k); }
    if k < s < |h.blocks| { Increasing(h.blocks, End(h), k, s); }
  }

  // ----- rt_malloc -----

  lemma AlignedSum(a: nat, b: nat)
    requires OnGrid(a) && OnGrid(b)
    ensures OnGrid(a + HEADER + b)
  {
  }

  lemma TakeTiled(h: Heap, j: nat, size: nat)
    requires Tiled(h.blocks, End(h)) && h.usedMem == UsedSpan(h.blocks, End(h))
    requires j < |h.blocks| && Fits(h.blocks, j, size, End(h)) && size >= MIN_ALIGNED
    ensures var g := TakeBlock(h, j, size); Tiled(g.blocks, End(g)) && g.usedMem == UsedSpan(g.blocks, End(g))
  {
    hide Tiled, Sum, SplitAt;
    var at := h.blocks[j].at + HEADER + size;
    if Splits(h, j, size) {
      SplitTiled(h.blocks, j, at, true, End(h));
      SplitSum(h.blocks, j, at, true, End(h), true, 0);
    } else {
      MarkTiled(h.blocks, j, true, End(h));
      MarkSum(h.blocks, j, true, End(h), true, 0);
    }
  }

  lemma SplitGrid(bs: seq<Block>, j: nat, size: nat)
    requires Grid(bs) && j < |bs| && OnGrid(size)
    ensures Grid(SplitAt(bs, j, bs[j].at + HEADER + size, true))
  {
    AlignedSum(bs[j].at, size);
    hide OnGrid;
  }

  lemma TakeGrid(h: Heap, j: nat, size: nat)
    requires Grid(h.blocks) && j < |h.blocks| && OnGrid(size)
    ensures Grid(TakeBlock(h, j, size).blocks)
  {
    hide OnGrid, SplitAt;
    if Splits(h, j, size) { SplitGrid(h.blocks, j, size); }
  }

  lemma TakeCoalesced(h: Heap, j: nat, size: nat)
    requires Coalesced(h.blocks) && j < |h.blocks| && !h.blocks[j].used
    ensures Coalesced(TakeBlock(h, j, size).blocks)
  {
    var cs := TakeBlock(h, j, size).blocks;
    forall i | 0 <= i < |cs| - 1 ensures cs[i].used || cs[i + 1].used {
      if Splits(h, j, size) {
        if i < j - 1 { assert h.blocks[i].used || h.blocks[i + 1].used; }
        else if i > j { assert h.blocks[i - 1].used || h.blocks[i].used; }
      } else {
        assert h.blocks[i].used || h.blocks[i + 1].used;
      }
    }
  }

  lemma TakeLfree(h: Heap, j: nat, size: nat)
    requires LfreeOk(h.blocks, h.lfree, End(h)) && j < |h.blocks| && Tiled(TakeBlock(h, j, size).blocks, End(h))
    ensures var g := TakeBlock(h, j, size); LfreeOk(g.blocks, g.lfree, End(g))
  {
    hide Tiled, NextAt, NextFree;
    var cs := TakeBlock(h, j, size).blocks;
    if h.blocks[j].at == h.lfree {
      NextFreeOk(cs, j, End(h));
    } else if h.lfree != End(h) {
      var i :| 0 <= i < |h.blocks| && h.blocks[i].at == h.lfree && !h.blocks[i].used;
      if i < j { assert cs[i] == h.blocks[i]; }
      else if Splits(h, j, size) { assert cs[i + 1] == h.blocks[i]; } else { assert cs[i] == h.blocks[i]; }
    }
  }

  lemma TakeLowest(h: Heap, j: nat, size: nat)
    requires Lowest(h.blocks, h.lfree) && Tiled(h.blocks, End(h)) && j < |h.blocks| && !h.blocks[j].used
    requires Tiled(TakeBlock(h, j, size).blocks, End(h))
    ensures Lowest(TakeBlock(h, j, size).blocks, TakeBlock(h, j, size).lfree)
  {
    hide Tiled, NextAt;
    var g := TakeBlock(h, j, size);
    var cs, at := g.blocks, h.blocks[j].at;
    forall i | 0 <= i < |cs| && !cs[i].used ensures g.lfree <= cs[i].at {
      if i < j {
        assert cs[i] == h.blocks[i];
        Increasing(h.blocks, End(h), i, j);
      } else if at == h.lfree {
        NextFreeOk(cs, j, End(h));
      } else if i > j {
        Increasing(cs, End(h), j, i);
      }
    }
  }

  lemma AlignWanted(size: nat)
    ensures OnGrid(Wanted(size)) && Wanted(size) >= MIN_ALIGNED && Wanted(size) >= size
    ensures Align(size) >= size && OnGrid(Align(size))
  {
  }

  /** rt_malloc keeps the tiling, the counters and the lowest-free pointer. */
  lemma MallocInv(h: Heap, size: nat)
    requires Inv(h) && h.memSize >= MIN_ALIGNED
    ensures Inv(Malloc(h, size).0)
    ensures Lowest(h.blocks, h.lfree) ==> Lowest(Malloc(h, size).0.blocks, Malloc(h, size).0.lfree)
  {
    hide OnGrid, Grid, Align, Lowest, LfreeOk, Tiled, Coalesced, Fits, IndexOf, FindFit, TakeBlock, Sum;
    var (g, r) := Malloc(h, size);
    if r.Some? {
      AlignWanted(size);
      var w := Wanted(size);
      FindFitOk(h.blocks, IndexOf(h.blocks, h.lfree), w, h.memSize - w, End(h));
      MallocTake(h, r.value, w);
    }
  }

  lemma MallocTake(h: Heap, j: nat, size: nat)
    requires Inv(h) && j < |h.blocks| && Fits(h.blocks, j, size, End(h)) && OnGrid(size) && size >= MIN_ALIGNED
    ensures Inv(TakeBlock(h, j, size))
    ensures Lowest(h.blocks, h.lfree) ==> Lowest(TakeBlock(h, j, size).blocks, TakeBlock(h, j, size).lfree)
  {
    hide Lowest, LfreeOk, Tiled, Coalesced, Grid, OnGrid, Sum;
    TakeTiled(h, j, size);
    TakeGrid(h, j, size);
    TakeCoalesced(h, j, size);
    TakeLfree(h, j, size);
    if Lowest(h.blocks, h.lfree) { TakeLowest(h, j, size); }
  }

  // ----- rt_free -----

  /** As Inv, but the free block `j` may have free neighbours on the sides listed. */
  ghost predicate Open(h: Heap, j: nat, before: bool, after: bool) {
    && Tiled(h.blocks, End(h)) && Grid(h.blocks)
    && h.usedMem == UsedSpan(h.blocks, End(h)) && LfreeOk(h.blocks, h.lfree, End(h))
    && j < |h.blocks| && !h.blocks[j].used
    && forall i :: 0 <= i < |h.blocks| - 1 && !(before && i + 1 == j) && !(after && i == j) ==>
         h.blocks[i].used || h.blocks[i + 1].used
  }

  lemma JoinLfree(h: Heap, k: nat)
    requires LfreeOk(h.blocks, h.lfree, End(h)) && k + 1 < |h.blocks| && !h.blocks[k].used
    ensures LfreeOk(Join(h, k).blocks, Join(h, k).lfree, End(h))
  {
    var g := Join(h, k);
    if h.lfree == h.blocks[k + 1].at {
      assert g.blocks[k] == h.blocks[k];
    } else if h.lfree != End(h) {
      var i :| 0 <= i < |h.blocks| && h.blocks[i].at == h.lfree && !h.blocks[i].used;
      if i <= k { assert g.blocks[i] == h.blocks[i]; } else { assert g.blocks[i - 1] == h.blocks[i]; }
    }
  }

  lemma JoinLowest(h: Heap, k: nat)
    requires Lowest(h.blocks, h.lfree) && Tiled(h.blocks, End(h)) && k + 1 < |h.blocks| && !h.blocks[k].used
    ensures Lowest(Join(h, k).blocks, Join(h, k).lfree)
  {
    var g := Join(h, k);
    hide Tiled;
    Increasing(h.blocks, End(h), k, k + 1);
    forall i | 0 <= i < |g.blocks| && !g.blocks[i].used ensures g.lfree <= g.blocks[i].at {
      assert g.blocks[i] == if i <= k then h.blocks[i] else h.blocks[i + 1];
      assert h.lfree <= h.blocks[k].at;
    }
  }

  lemma PlugForwardOpen(h: Heap, j: nat, before: bool)
    requires Open(h, j, before, true)
    ensures Open(PlugForward(h, j), j, before, false)
    ensures Lowest(h.blocks, h.lfree) ==> Lowest(PlugForward(h, j).blocks, PlugForward(h, j).lfree)
  {
    hide Tiled, LfreeOk, Lowest, Sum, OnGrid;
    if j + 1 < |h.blocks| && !h.blocks[j + 1].used {
      JoinTiled(h.blocks, j, End(h));
      JoinSum(h.blocks, j, End(h), true, 0);
      JoinLfree(h, j);
      if Lowest(h.blocks, h.lfree) { JoinLowest(h, j); }
      var cs := Join(h, j).blocks;
      forall i | 0 <= i < |cs| - 1 && !(before && i + 1 == j) ensures cs[i].used || cs[i + 1].used {
        if i < j { assert h.blocks[i].used || h.blocks[i + 1].used; }
        else { assert h.blocks[i + 1].used || h.blocks[i + 2].used; }
      }
    }
  }

  lemma PlugBackwardInv(h: Heap, j: nat)
    requires Open(h, j, true, false)
    ensures Inv(PlugBackward(h, j))
    ensures Lowest(h.blocks, h.lfree) ==> Lowest(PlugBackward(h, j).blocks, PlugBackward(h, j).lfree)
  {
    hide Tiled, LfreeOk, Lowest, Sum, OnGrid;
    if j > 0 && !h.blocks[j - 1].used {
      JoinTiled(h.blocks, j - 1, End(h));
      JoinSum(h.blocks, j - 1, End(h), true, 0);
      JoinLfree(h, j - 1);
      if Lowest(h.blocks, h.lfree) { JoinLowest(h, j - 1); }
      var cs := Join(h, j - 1).blocks;
      forall i | 0 <= i < |cs| - 1 ensures cs[i].used || cs[i + 1].used {
        if i < j - 1 { assert h.blocks[i].used || h.blocks[i + 1].used; }
        else { assert h.blocks[i + 1].used || h.blocks[i + 2].used; }
      }
    }
  }

  lemma ReleaseOpen(h: Heap, j: nat)
    requires Inv(h) && j < |h.blocks| && h.blocks[j].used
    ensures Open(Release(h, j), j, true, true)
    ensures Lowest(h.blocks, h.lfree) ==> Lowest(Release(h, j).blocks, Release(h, j).lfree)
  {
    hide Tiled, Sum, OnGrid;
    var g := Release(h, j);
    MarkTiled(h.blocks, j, false, End(h));
    MarkSum(h.blocks, j, false, End(h), true, 0);
    if g.lfree == h.blocks[j].at {
      assert g.blocks[j].at == g.lfree;
    } else if h.lfree != End(h) {
      var i :| 0 <= i < |h.blocks| && h.blocks[i].at == h.lfree && !h.blocks[i].used;
      assert g.blocks[i] == h.blocks[i];
    }
    BelowEnd(h.blocks, End(h), j);
  }

  /** rt_free keeps the tiling, the counters and the lowest-free pointer. */
  lemma FreeInv(h: Heap, j: nat)
    requires Inv(h) && j < |h.blocks| && h.blocks[j].used
    ensures Inv(Free(h, j))
    ensures Lowest(h.blocks, h.lfree) ==> Lowest(Free(h, j).blocks, Free(h, j).lfree)
  {
    hide Inv, Open, Lowest, Release, PlugForward, PlugBackward;
    ReleaseOpen(h, j);
    OpenIndex(Release(h, j), j, true, true);
    PlugForwardOpen(Release(h, j), j, true);
    OpenIndex(PlugForward(Release(h, j), j), j, true, false);
    PlugBackwardInv(PlugForward(Release(h, j), j), j);
  }

  lemma OpenIndex(h: Heap, j: nat, before: bool, after: bool)
    requires Open(h, j, before, after)
    ensures j < |h.blocks|
  {
  }

  /** What rt_malloc takes, rt_free gives back: the same blocks, `lfree` and `used_mem`. */
  lemma MallocFreeRestores(h: Heap, size: nat)
    requires Inv(h) && h.memSize >= MIN_ALIGNED && Malloc(h, size).1.Some?
    ensures var (g, r) := Malloc(h, size); r.value < |g.blocks| && Free(g, r.value) == h
  {
    hide OnGrid, Align, Tiled, IndexOf, FindFit, LfreeOk, UsedSpan, Grid;
    var (g, r) := Malloc(h, size);
    var j, w := r.value, Wanted(size);
    FindFitOk(h.blocks, IndexOf(h.blocks, h.lfree), w, h.memSize - w, End(h));
    StartAt(h, j);
    TakeFreeRestores(h, j, w);
  }

  lemma TakeFreeRestores(h: Heap, j: nat, size: nat)
    requires Inv(h) && j < |h.blocks| && Fits(h.blocks, j, size, End(h)) && h.lfree <= h.blocks[j].at && size > 0
    ensures Free(TakeBlock(h, j, size), j) == h
  {
    hide Tiled, LfreeOk, UsedSpan, Grid, TakeBlock, Free;
    if h.blocks[j].at == h.lfree { AboveTaken(h, j, size); }
    if Splits(h, j, size) { UnsplitRestores(h, j, size); } else { UnmarkRestores(h, j, size); }
  }

  lemma UnsplitRestores(h: Heap, j: nat, size: nat)
    requires Coalesced(h.blocks) && j < |h.blocks| && !h.blocks[j].used && Splits(h, j, size)
    requires h.lfree <= h.blocks[j].at && (h.blocks[j].at == h.lfree ==> h.lfree < TakeBlock(h, j, size).lfree)
    ensures Free(TakeBlock(h, j, size), j) == h
  {
    hide NextFree, SplitAt, Remove;
    var at := h.blocks[j].at + HEADER + size;
    UnsplitBlocks(h.blocks, j, at);
    var f := Release(TakeBlock(h, j, size), j);
    assert f == h.(blocks := SplitAt(h.blocks, j, at, false));
    assert PlugForward(f, j) == h;
    assert j > 0 ==> h.blocks[j - 1].used;
  }

  lemma UnsplitBlocks(bs: seq<Block>, j: nat, at: nat)
    requires j < |bs| && !bs[j].used
    ensures var cs := SplitAt(bs, j, at, true);
      && |cs| == |bs| + 1 && cs[j] == Block(bs[j].at, true) && cs[j + 1] == Block(at, false)
      && cs[j := Block(bs[j].at, false)] == SplitAt(bs, j, at, false)
      && Remove(SplitAt(bs, j, at, false), j + 1) == bs
  {
  }

  lemma UnmarkRestores(h: Heap, j: nat, size: nat)
    requires Coalesced(h.blocks) && j < |h.blocks| && !h.blocks[j].used && !Splits(h, j, size)
    requires h.lfree <= h.blocks[j].at && (h.blocks[j].at == h.lfree ==> h.lfree < TakeBlock(h, j, size).lfree)
    ensures Free(TakeBlock(h, j, size), j) == h
  {
    hide NextFree;
    var f := Release(TakeBlock(h, j, size), j);
    assert f.blocks == h.blocks;
    assert f == h;
    assert j > 0 ==> h.blocks[j - 1].used;
  }

  lemma AboveTaken(h: Heap, j: nat, size: nat)
    requires Tiled(h.blocks, End(h)) && j < |h.blocks| && h.blocks[j].at == h.lfree && size > 0
    ensures h.lfree < TakeBlock(h, j, size).lfree
  {
    hide Tiled;
    var cs := TakeBlock(h, j, size).blocks;
    assert cs[j].used;
    NextFreeAbove(cs, j + 1, End(h), h.lfree) by {
      forall k | j + 1 <= k < |cs| ensures h.lfree < cs[k].at {
        if Splits(h, j, size) {
          if k > j + 1 { Increasing(h.blocks, End(h), j, k - 1); }
        } else {
          Increasing(h.blocks, End(h), j, k);
        }
      }
      BelowEnd(h.blocks, End(h), j);
    }
  }

  lemma {:induction false} NextFreeAbove(bs: seq<Block>, i: nat, end: nat, low: nat)
    requires low < end && forall k :: i <= k < |bs| ==> low < bs[k].at
    ensures low < NextFree(bs, i, end)
    decreases |bs| - i
  {
    if i < |bs| && bs[i].used { NextFreeAbove(bs, i + 1, end, low); }
  }

  /** rt_malloc hands out room for the request, aligned, from a free block, and disturbs no
      allocation in force. */
  lemma MallocLive(h: Heap, size: nat, a: nat, n: nat)
    requires Inv(h) && h.memSize >= MIN_ALIGNED && Malloc(h, size).1.Some?
    ensures var (g, r) := Malloc(h, size); var j := r.value;
      && j < |g.blocks| && g.blocks[j].used && OnGrid(g.blocks[j].at + HEADER)
      && NextAt(g.blocks, j, End(g)) - g.blocks[j].at - HEADER >= size
      && !Live(h.blocks, End(h), g.blocks[j].at, n)
      && (Live(g.blocks, End(g), a, n) <==>
            Live(h.blocks, End(h), a, n) || (a == g.blocks[j].at && n == NextAt(g.blocks, j, End(g))))
  {
    hide Align, IndexOf, FindFit, LfreeOk, UsedSpan, Grid, Live, OnGrid, Coalesced, Tiled, TakeBlock;
    var j, w := Malloc(h, size).1.value, Wanted(size);
    AlignWanted(size);
    FindFitOk(h.blocks, IndexOf(h.blocks, h.lfree), w, h.memSize - w, End(h));
    PayloadOnGrid(h.blocks, j);
    NotLive(h.blocks, End(h), j, n);
    TakeLive(h, j, w, a, n);
  }

  lemma PayloadOnGrid(bs: seq<Block>, j: nat)
    requires Grid(bs) && j < |bs|
    ensures OnGrid(bs[j].at + HEADER)
  {
    assert OnGrid(bs[j].at);
  }

  lemma TakeLive(h: Heap, j: nat, size: nat, a: nat, n: nat)
    requires Tiled(h.blocks, End(h)) && j < |h.blocks| && Fits(h.blocks, j, size, End(h))
    ensures var g := TakeBlock(h, j, size);
      && j < |g.blocks| && g.blocks[j] == Block(h.blocks[j].at, true)
      && NextAt(g.blocks, j, End(g)) - g.blocks[j].at - HEADER >= size
      && (Live(g.blocks, End(g), a, n) <==>
            (a != h.blocks[j].at && Live(h.blocks, End(h), a, n))
            || (a == h.blocks[j].at && n == NextAt(g.blocks, j, End(g))))
  {
    hide Tiled, Live, NextFree;
    if Splits(h, j, size) {
      SplitLive(h.blocks, End(h), j, h.blocks[j].at + HEADER + size, a, n);
    } else {
      MarkLive(h.blocks, End(h), j, true, a, n);
    }
  }

  /** rt_free ends one allocation and disturbs no other. */
  lemma FreeLive(h: Heap, j: nat, a: nat, n: nat)
    requires Inv(h) && j < |h.blocks| && h.blocks[j].used
    ensures Live(Free(h, j).blocks, End(h), a, n) <==> Live(h.blocks, End(h), a, n) && a != h.blocks[j].at
  {
    hide Tiled, Live, LfreeOk, UsedSpan, Grid, Coalesced;
    MarkLive(h.blocks, End(h), j, false, a, n);
    PlugLive(Release(h, j), j, a, n);
  }

  lemma PlugLive(h: Heap, j: nat, a: nat, n: nat)
    requires j < |h.blocks| && !h.blocks[j].used
    ensures Live(PlugHoles(h, j).blocks, End(h), a, n) <==> Live(h.blocks, End(h), a, n)
  {
    hide Live;
    var g := PlugForward(h, j);
    if j + 1 < |h.blocks| && !h.blocks[j + 1].used { JoinLive(h.blocks, End(h), j, a, n); }
    if j > 0 && !g.blocks[j - 1].used { JoinLive(g.blocks, End(h), j - 1, a, n); }
  }

  // ----- when rt_malloc fails -----

  /** With `lfree` lowest, a request is refused exactly when every block that would fit is the last
      one and fits it exactly: the bound of the search loop skips that block. */
  lemma MallocRefuses(h: Heap, size: nat)
    requires Inv(h) && Lowest(h.blocks, h.lfree) && h.memSize >= MIN_ALIGNED && 0 < size && Align(size) <= h.memSize
    ensures Malloc(h, size).1.None? <==>
      forall k :: 0 <= k < |h.blocks| && Fits(h.blocks, k, Wanted(size), End(h)) ==>
        h.blocks[k].at + HEADER + Wanted(size) == End(h)
  {
    hide Align, IndexOf, FindFit, LfreeOk, UsedSpan, Grid, Coalesced, OnGrid, TakeBlock, Tiled;
    var w := Wanted(size);
    var start := IndexOf(h.blocks, h.lfree);
    FindFitOk(h.blocks, start, w, h.memSize - w, End(h));
    forall k | 0 <= k < |h.blocks| && Fits(h.blocks, k, w, End(h))
      ensures start <= k && h.blocks[k].at + HEADER + w <= End(h)
    {
      StartAt(h, k);
      NextBelow(h.blocks, End(h), k);
    }
  }

  /** A fresh heap of 16 bytes refuses the 16 bytes it has. */
  lemma ExactFitRefused()
    ensures var h := Init(MIN_ALIGNED);
      Inv(h) && Lowest(h.blocks, h.lfree) && Fits(h.blocks, 0, Wanted(16), End(h)) && Malloc(h, 16) == (h, None)
  {
    hide Inv, Lowest;
    InitInv(MIN_ALIGNED);
  }

  // ----- rt_realloc -----

  function Cut(h: Heap, j: nat, size: nat): Heap
    requires j < |h.blocks|
  {
    var at := h.blocks[j].at;
    h.(blocks := SplitAt(h.blocks, j, at + HEADER + size, true),
       usedMem := h.usedMem - (NextAt(h.blocks, j, End(h)) - at - HEADER - size))
  }

  lemma CutOpen(h: Heap, j: nat, size: nat)
    requires Inv(h) && j < |h.blocks| && h.blocks[j].used && Shrinks(h, j, size) && OnGrid(size) && size >= ALIGN
    ensures Open(Cut(h, j, size), j + 1, false, true) && Cut(h, j, size).blocks[j].used
  {
    hide OnGrid, Grid, UsedSpan, Tiled, Coalesced, LfreeOk, SplitAt;
    CutTiled(h, j, size);
    SplitGrid(h.blocks, j, size);
    CutCoalesced(h, j, size);
  }

  lemma CutTiled(h: Heap, j: nat, size: nat)
    requires Tiled(h.blocks, End(h)) && h.usedMem == UsedSpan(h.blocks, End(h))
    requires j < |h.blocks| && h.blocks[j].used && Shrinks(h, j, size) && size >= ALIGN
    ensures var g := Cut(h, j, size); Tiled(g.blocks, End(g)) && g.usedMem == UsedSpan(g.blocks, End(g))
  {
    hide Tiled, Sum, SplitAt;
    var at := h.blocks[j].at + HEADER + size;
    SplitTiled(h.blocks, j, at, true, End(h));
    SplitSum(h.blocks, j, at, true, End(h), true, 0);
  }

  lemma CutCoalesced(h: Heap, j: nat, size: nat)
    requires Coalesced(h.blocks) && LfreeOk(h.blocks, h.lfree, End(h)) && j < |h.blocks| && h.blocks[j].used
    ensures var cs := Cut(h, j, size).blocks;
      && cs[j].used && LfreeOk(cs, h.lfree, End(h)) && |cs| == |h.blocks| + 1 && !cs[j + 1].used
      && forall i :: 0 <= i < |cs| - 1 && i != j + 1 ==> cs[i].used || cs[i + 1].used
  {
    var cs := Cut(h, j, size).blocks;
    if h.lfree != End(h) {
      var i :| 0 <= i < |h.blocks| && h.blocks[i].at == h.lfree && !h.blocks[i].used;
      if i < j { assert cs[i] == h.blocks[i]; } else { assert cs[i + 1] == h.blocks[i]; }
    }
    forall i | 0 <= i < |cs| - 1 && i != j + 1 ensures cs[i].used || cs[i + 1].used {
      if i < j - 1 { assert h.blocks[i].used || h.blocks[i + 1].used; }
      else if i > j + 1 { assert h.blocks[i - 1].used || h.blocks[i].used; }
    }
  }

  lemma ShrinkInv(h: Heap, j: nat, size: nat)
    requires Inv(h) && j < |h.blocks| && h.blocks[j].used && Shrinks(h, j, size) && OnGrid(size) && size >= ALIGN
    ensures Inv(Shrink(h, j, size))
  {
    hide OnGrid, Grid, Tiled, LfreeOk, UsedSpan, SplitAt;
    CutOpen(h, j, size);
    var g := Cut(h, j, size);
    PlugForwardOpen(g, j + 1, false);
    assert Shrink(h, j, size) == PlugForward(g, j + 1);
  }

  /** Shrinking does not lower `lfree`: it stays lowest exactly when it was below the block, or was
      the free block right behind it, which the remainder absorbs. */
  lemma ShrinkLowest(h: Heap, j: nat, size: nat)
    requires Inv(h) && Lowest(h.blocks, h.lfree)
    requires j < |h.blocks| && h.blocks[j].used && Shrinks(h, j, size) && OnGrid(size) && size >= ALIGN
    ensures Lowest(Shrink(h, j, size).blocks, Shrink(h, j, size).lfree) <==>
      h.lfree < h.blocks[j].at || (h.lfree == NextAt(h.blocks, j, End(h)) && h.lfree != End(h))
  {
    hide OnGrid, UsedSpan, Coalesced, Tiled, Shrink, LfreeOk;
    LfreeOutside(h, j);
    var g, rest := Shrink(h, j, size), h.blocks[j].at + HEADER + size;
    ShrinkShape(h, j, size, j + 1);
    if j + 1 < |h.blocks| { BelowEnd(h.blocks, End(h), j + 1); }
    forall i | 0 <= i < |g.blocks| && !g.blocks[i].used && i != j + 1 ensures h.lfree <= g.blocks[i].at {
      ShrinkShape(h, j, size, i);
    }
  }

  /** The blocks of a shrunk heap: the remainder, and blocks that were there. */
  lemma ShrinkShape(h: Heap, j: nat, size: nat, i: nat)
    requires j < |h.blocks| && h.blocks[j].used
    ensures var g, rest := Shrink(h, j, size), h.blocks[j].at + HEADER + size;
      && j + 1 < |g.blocks| && g.blocks[j + 1] == Block(rest, false)
      && g.lfree ==
         (if j + 1 < |h.blocks| && !h.blocks[j + 1].used && h.lfree == h.blocks[j + 1].at then rest else h.lfree)
      && (i < |g.blocks| && i != j + 1 && !g.blocks[i].used ==>
          exists k :: 0 <= k < |h.blocks| && h.blocks[k] == g.blocks[i])
  {
    var g := Shrink(h, j, size);
    var k := if i < j || (j + 1 < |h.blocks| && !h.blocks[j + 1].used) then i else i - 1;
    if i < |g.blocks| && i != j + 1 && i != j { assert h.blocks[k] == g.blocks[i]; }
  }

  lemma LfreeOutside(h: Heap, j: nat)
    requires Inv(h) && j < |h.blocks| && h.blocks[j].used
    ensures h.lfree < h.blocks[j].at || NextAt(h.blocks, j, End(h)) <= h.lfree
    ensures h.lfree == NextAt(h.blocks, j, End(h)) && h.lfree != End(h) ==> j + 1 < |h.blocks| && !h.blocks[j + 1].used
  {
    NextBelow(h.blocks, End(h), j);
    if h.lfree != End(h) {
      var i :| 0 <= i < |h.blocks| && h.blocks[i].at == h.lfree && !h.blocks[i].used;
      if i < j { Increasing(h.blocks, End(h), i, j); }
      if i > j + 1 { Increasing(h.blocks, End(h), j + 1, i); }
    }
  }

  /** After the request for a new block, the old one is still there to be freed. */
  lemma MovedFrom(h: Heap, j: nat, size: nat)
    requires Inv(h) && h.memSize >= MIN_ALIGNED && j < |h.blocks| && h.blocks[j].used && Malloc(h, size).1.Some?
    ensures var g := Malloc(h, size).0; var i := IndexOf(g.blocks, h.blocks[j].at);
      i < |g.blocks| && g.blocks[i].used && g.blocks[i].at == h.blocks[j].at
  {
    var g, a, n := Malloc(h, size).0, h.blocks[j].at, NextAt(h.blocks, j, End(h));
    hide Inv, Malloc;
    assert LiveAt(h.blocks, End(h), j, a, n);
    MallocLive(h, size, a, n);
    var k :| 0 <= k < |g.blocks| && LiveAt(g.blocks, End(g), k, a, n);
    MallocInv(h, size);
    IndexFound(g.blocks, a);
    FoundUsed(g, k);
  }

  lemma FoundUsed(g: Heap, k: nat)
    requires Inv(g) && k < |g.blocks|
    ensures IndexOf(g.blocks, g.blocks[k].at) == k
  {
    hide Tiled, LfreeOk, UsedSpan, Grid, Coalesced;
    IndexFound(g.blocks, g.blocks[k].at);
    var i := IndexOf(g.blocks, g.blocks[k].at);
    if i < |g.blocks| { DistinctAt(g.blocks, End(g), i, k); }
  }

  lemma ReallocInv(h: Heap, j: nat, newSize: nat)
    requires Inv(h) && h.memSize >= MIN_ALIGNED && j < |h.blocks| && h.blocks[j].used
    ensures Inv(Realloc(h, j, newSize).0)
  {
    hide Inv, Malloc, Free, Shrink, Align, OnGrid, IndexOf;
    var size := Align(newSize);
    AlignWanted(newSize);
    if size > 0 { GridLeast(size); }
    FreeInv(h, j);
    MallocInv(h, size);
    if size <= h.memSize && size > 0 {
      if Shrinks(h, j, size) { ShrinkInv(h, j, size); }
      if Malloc(h, size).1.Some? {
        MovedFrom(h, j, size);
        FreeInv(Malloc(h, size).0, IndexOf(Malloc(h, size).0.blocks, h.blocks[j].at));
      }
    }
  }

  lemma GridLeast(n: nat)
    requires OnGrid(n) && n > 0
    ensures n >= ALIGN
  {
  }

  lemma LiveUnique(h: Heap, j: nat, n: nat)
    requires Inv(h) && j < |h.blocks| && h.blocks[j].used
    ensures Live(h.blocks, End(h), h.blocks[j].at, n) <==> n == NextAt(h.blocks, j, End(h))
  {
    hide Tiled, LfreeOk, UsedSpan, Grid, Coalesced;
    assert LiveAt(h.blocks, End(h), j, h.blocks[j].at, NextAt(h.blocks, j, End(h)));
    if Live(h.blocks, End(h), h.blocks[j].at, n) {
      var i :| 0 <= i < |h.blocks| && LiveAt(h.blocks, End(h), i, h.blocks[j].at, n);
      DistinctAt(h.blocks, End(h), i, j);
    }
  }

  lemma ShrinkLive(h: Heap, j: nat, size: nat, a: nat, n: nat)
    requires Inv(h) && j < |h.blocks| && h.blocks[j].used
    ensures Live(Shrink(h, j, size).blocks, End(h), a, n) <==>
      (a == h.blocks[j].at && n == h.blocks[j].at + HEADER + size)
      || (a != h.blocks[j].at && Live(h.blocks, End(h), a, n))
  {
    hide Tiled, Live, LfreeOk, UsedSpan, Grid, Coalesced, PlugHoles;
    SplitLive(h.blocks, End(h), j, h.blocks[j].at + HEADER + size, a, n);
    PlugLive(Cut(h, j, size), j + 1, a, n);
  }

  /** The move: a new allocation, then the old one freed. */
  lemma MovedLive(h: Heap, j: nat, size: nat, a: nat, n: nat)
    requires Inv(h) && h.memSize >= MIN_ALIGNED && j < |h.blocks| && h.blocks[j].used && Malloc(h, size).1.Some?
    ensures var (g, r) := Malloc(h, size); var i := IndexOf(g.blocks, h.blocks[j].at);
      && r.value < |g.blocks| && i < |g.blocks|
      && var new' := g.blocks[r.value].at;
      && (Live(Free(g, i).blocks, End(h), a, n) <==>
            (Live(h.blocks, End(h), a, n) && a != h.blocks[j].at) ||
                (a == new' && n == NextAt(g.blocks, r.value, End(g))))
      && !Live(h.blocks, End(h), new', n)
      && NextAt(g.blocks, r.value, End(g)) - new' - HEADER >= size
  {
    hide Inv, Malloc, Free, Live, IndexOf;
    MallocEnd(h, size);
    MallocLive(h, size, a, n);
    MallocInv(h, size);
    MovedFrom(h, j, size);
    var g := Malloc(h, size).0;
    FreeLive(g, IndexOf(g.blocks, h.blocks[j].at), a, n);
    MallocLive(h, size, h.blocks[j].at, NextAt(h.blocks, j, End(h)));
    LiveUnique(h, j, NextAt(h.blocks, j, End(h)));
  }

  lemma KeepsEnd(h: Heap, j: nat, size: nat)
    requires j < |h.blocks|
    ensures Free(h, j).memSize == h.memSize && Shrink(h, j, size).memSize == h.memSize
  {
    hide Remove, SplitAt;
  }

  lemma MallocEnd(h: Heap, size: nat)
    requires h.memSize >= MIN_ALIGNED
    ensures End(Malloc(h, size).0) == End(h)
    ensures Malloc(h, size).1.None? ==> Malloc(h, size).0 == h
  {
  }

  /** rt_realloc disturbs no other allocation, and a result is an allocation with enough room. */
  lemma ReallocLive(h: Heap, j: nat, newSize: nat, a: nat, n: nat)
    requires Inv(h) && h.memSize >= MIN_ALIGNED && j < |h.blocks| && h.blocks[j].used
    ensures var (g, r) := Realloc(h, j, newSize);
      && (Live(h.blocks, End(h), a, n) && a != h.blocks[j].at ==> Live(g.blocks, End(g), a, n))
      && (Live(g.blocks, End(g), a, n) && r != Some(a) ==> Live(h.blocks, End(h), a, n))
      && (r.None? && newSize > 0 ==> g == h)
      && (r.Some? && Live(g.blocks, End(g), r.value, n) ==> n - r.value - HEADER >= newSize)
  {
    hide Inv, Malloc, Free, Shrink, Align, OnGrid, IndexOf, Live;
    var size := Align(newSize);
    AlignWanted(newSize);
    KeepsEnd(h, j, size);
    if size > h.memSize {
    } else if size == 0 {
      FreeLive(h, j, a, n);
    } else if NextAt(h.blocks, j, End(h)) - h.blocks[j].at - HEADER == size {
      LiveUnique(h, j, n);
    } else if Shrinks(h, j, size) {
      ShrinkLive(h, j, size, a, n);
      ShrinkLive(h, j, size, h.blocks[j].at, n);
    } else {
      MallocEnd(h, size);
      if Malloc(h, size).1.Some? {
        MovedLive(h, j, size, a, n);
        var at := Malloc(h, size).0.blocks[Malloc(h, size).1.value].at;
        MovedLive(h, j, size, at, n);
        KeepsEnd(Malloc(h, size).0, IndexOf(Malloc(h, size).0.blocks, h.blocks[j].at), size);
      }
    }
  }

  // ----- every run -----

  datatype Op = MallocOp(size: nat) | FreeOp(block: nat) | ReallocOp(block: nat, size: nat)

  /** rt_free and rt_realloc are given blocks in use. */
  function Step(h: Heap, op: Op): Heap
    requires h.memSize >= MIN_ALIGNED
  {
    match op
    case MallocOp(size) => Malloc(h, size).0
    case FreeOp(j) => if j < |h.blocks| && h.blocks[j].used then Free(h, j) else h
    case ReallocOp(j, size) => if j < |h.blocks| && h.blocks[j].used then Realloc(h, j, size).0 else h
  }

  function Run(h: Heap, ops: seq<Op>): Heap
    requires h.memSize >= MIN_ALIGNED
    decreases |ops|
  {
    if ops == [] then h else
      var g := Step(h, ops[0]);
      if g.memSize < MIN_ALIGNED then g else Run(g, ops[1..])
  }

  lemma StepSize(h: Heap, op: Op)
    requires h.memSize >= MIN_ALIGNED
    ensures Step(h, op).memSize == h.memSize
  {
    hide FindFit, IndexOf, Align, Remove, SplitAt;
  }

  lemma StepInv(h: Heap, op: Op)
    requires Inv(h) && h.memSize >= MIN_ALIGNED
    ensures Inv(Step(h, op))
    ensures !op.ReallocOp? && Lowest(h.blocks, h.lfree) ==> Lowest(Step(h, op).blocks, Step(h, op).lfree)
  {
    hide Inv, Malloc, Free, Realloc, Lowest;
    match op
    case MallocOp(size) => MallocInv(h, size);
    case FreeOp(j) => if j < |h.blocks| && h.blocks[j].used { FreeInv(h, j); }
    case ReallocOp(j, size) => if j < |h.blocks| && h.blocks[j].used { ReallocInv(h, j, size); }
  }

  /** Every run keeps an exact, coalesced tiling with the right byte count; without reallocations
      `lfree` is the lowest free block. */
  lemma {:induction false} RunInv(h: Heap, ops: seq<Op>)
    requires Inv(h) && h.memSize >= MIN_ALIGNED
    ensures Inv(Run(h, ops)) && Run(h, ops).memSize == h.memSize
    ensures (forall op :: op in ops ==> !op.ReallocOp?) && Lowest(h.blocks, h.lfree) ==>
      Lowest(Run(h, ops).blocks, Run(h, ops).lfree)
    decreases |ops|
  {
    hide Inv, Step, Lowest;
    if ops != [] {
      StepSize(h, ops[0]);
      StepInv(h, ops[0]);
      RunInv(Step(h, ops[0]), ops[1..]);
    }
  }

  /** rt_system_heap_init */
  function Init(memSize: nat): Heap { Heap(memSize, [Block(0, false)], 0, 0) }

  lemma InitInv(memSize: nat)
    requires OnGrid(memSize) && memSize >= MIN_ALIGNED
    ensures Inv(Init(memSize)) && Lowest(Init(memSize).blocks, Init(memSize).lfree)
  {
  }

  lemma HeapCorrect(memSize: nat, ops: seq<Op>)
    requires OnGrid(memSize) && memSize >= MIN_ALIGNED
    ensures var h := Run(Init(memSize), ops);
      && Tiled(h.blocks, End(h)) && Grid(h.blocks) && Coalesced(h.blocks) && h.usedMem == UsedSpan(h.blocks, End(h))
      && LfreeOk(h.blocks, h.lfree, End(h))
      && ((forall op :: op in ops ==> !op.ReallocOp?) ==> Lowest(h.blocks, h.lfree))
  {
    hide Tiled, Coalesced, LfreeOk, Lowest, UsedSpan, Grid, OnGrid, Run;
    InitInv(memSize);
    RunInv(Init(memSize), ops);
  }

  function TwoInUse(): Heap { Heap(1000, [Block(0, true), Block(216, true), Block(432, false)], 432, 432) }

  lemma TwoInUseInv()
    ensures Inv(TwoInUse()) && Lowest(TwoInUse().blocks, TwoInUse().lfree)
  {
    var h := TwoInUse();
    assert Sum(h.blocks, 2, 1016, true, 0) == 0;
    assert Sum(h.blocks, 1, 1016, true, 0) == 216;
    assert h.blocks[2].at == 432;
  }

  /** A reallocation that leaves a free block below `lfree`. */
  lemma ReallocLosesLowest()
    ensures var h := TwoInUse();
      Inv(h) && Lowest(h.blocks, h.lfree) && !Lowest(Realloc(h, 0, 8).0.blocks, Realloc(h, 0, 8).0.lfree)
  {
    hide Inv, Lowest, Shrink;
    TwoInUseInv();
    ShrinkLowest(TwoInUse(), 0, 8);
  }
}
