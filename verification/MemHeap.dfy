/** RT-Thread's memheap: a pool tiled by blocks, first fit over a free list, in-place growth,
    shrinking and coalescing, with byte counters. */
module MemHeap {
  import opened Basics
  import opened Tiling
  import opened WaitList

  const HEADER := 24      // RT_MEMHEAP_SIZE
  const MINIALLOC := 12
  const ALIGN := 8

  /** The pool ends with a used block of no payload, at End. */
  datatype Heap = Heap(poolSize: nat, blocks: seq<Block>, free: seq<nat>, available: int, maxUsed: int)

  function End(h: Heap): nat { if h.poolSize < HEADER then 0 else h.poolSize - HEADER }
  function Align(n: nat): nat { (n + ALIGN - 1) / ALIGN * ALIGN }
  function Wanted(size: nat): nat { if Align(size) < MINIALLOC then MINIALLOC else Align(size) }
  function Max(a: int, b: int): int { if a < b then b else a }

  function Payload(h: Heap, j: nat): int
    requires j < |h.blocks|
  {
    NextAt(h.blocks, j, End(h)) - h.blocks[j].at - HEADER
  }

  /** MEMITEM_SIZE of the block at offset `a`. */
  function SizeAt(h: Heap, a: nat): int {
    var j := IndexOf(h.blocks, a);
    if j < |h.blocks| then Payload(h, j) else -1
  }

  // ----- the invariant -----

  ghost predicate Unused(bs: seq<Block>, a: nat) { exists i :: 0 <= i < |bs| && bs[i].at == a && !bs[i].used }

  /** The free list holds exactly the offsets of the unused blocks, once each. */
  ghost predicate FreeList(bs: seq<Block>, free: seq<nat>) {
    Distinct(free) && forall a :: a in free <==> Unused(bs, a)
  }

  function FreeBytes(bs: seq<Block>, end: nat): int { Sum(bs, 0, end, false, HEADER) }

  ghost predicate Inv(h: Heap) {
    && Tiled(h.blocks, End(h)) && Coalesced(h.blocks) && FreeList(h.blocks, h.free)
    && h.available == FreeBytes(h.blocks, End(h))
    && h.poolSize - h.available <= h.maxUsed
  }

  // ----- the operations -----

  /** The search of rt_memheap_alloc along the free list. */
  function FindFree(h: Heap, free: seq<nat>, size: nat): Option<nat> {
    if free == [] then None
    else if SizeAt(h, free[0]) >= size then Some(free[0])
    else FindFree(h, free[1..], size)
  }

  function Used(h: Heap): Heap { h.(maxUsed := Max(h.maxUsed, h.poolSize - h.available)) }

  predicate Splits(h: Heap, j: nat, size: nat)
    requires j < |h.blocks|
  {
    Payload(h, j) >= size + HEADER + MINIALLOC
  }

  function TakeBlock(h: Heap, j: nat, size: nat): Heap
    requires j < |h.blocks|
  {
    var at := h.blocks[j].at;
    var rest := at + size + HEADER;
    if Splits(h, j, size) then
      Used(h.(blocks := SplitAt(h.blocks, j, rest, true), free := [rest] + WaitList.Remove(h.free, at),
              available := h.available - size - HEADER))
    else
      Used(h.(blocks := h.blocks[j := Block(at, true)], free := WaitList.Remove(h.free, at),
              available := h.available - Payload(h, j)))
  }

  /** rt_memheap_alloc: the heap afterwards and the offset of the block handed out. */
  function Alloc(h: Heap, size: nat): (Heap, Option<nat>) {
    if Wanted(size) >= h.available then (h, None)
    else
      var a := FindFree(h, h.free, Wanted(size));
      if a.None? || IndexOf(h.blocks, a.value) == |h.blocks| then (h, None)
      else (TakeBlock(h, IndexOf(h.blocks, a.value), Wanted(size)), a)
  }

  /** Block `k` absorbs its free successor. */
  function MergeNext(h: Heap, k: nat): Heap
    requires k < |h.blocks|
  {
    if k + 1 < |h.blocks| && !h.blocks[k + 1].used then
      h.(blocks := Tiling.Remove(h.blocks, k + 1), free := WaitList.Remove(h.free, h.blocks[k + 1].at),
         available := h.available + HEADER)
    else h
  }

  /** rt_memheap_free of the payload of block `j`. */
  function Free(h: Heap, j: nat): Heap
    requires j < |h.blocks|
  {
    if j > 0 && !h.blocks[j - 1].used then
      MergeNext(h.(blocks := Tiling.Remove(h.blocks, j), available := h.available + Payload(h, j) + HEADER), j - 1)
    else
      var at := h.blocks[j].at;
      var g := MergeNext(h.(blocks := h.blocks[j := Block(at, false)], available := h.available + Payload(h, j)), j);
      g.(free := [at] + g.free)
  }

  predicate GrowsInPlace(h: Heap, j: nat, size: nat)
    requires j < |h.blocks|
  {
    j + 1 < |h.blocks| && !h.blocks[j + 1].used && Payload(h, j + 1) + Payload(h, j) > size + MINIALLOC
  }

  /** Block `j` takes bytes from its free successor, whose header moves up. */
  function Grow(h: Heap, j: nat, size: nat): Heap
    requires j + 1 < |h.blocks|
  {
    var rest := h.blocks[j].at + HEADER + size;
    var gone := h.(blocks := Tiling.Remove(h.blocks, j + 1), free := WaitList.Remove(h.free, h.blocks[j + 1].at));
    Used(gone.(blocks := SplitAt(gone.blocks, j, rest, true), free := [rest] + gone.free,
               available := h.available - (size - Payload(h, j))))
  }

  /** Block `j` gives up its tail, which absorbs a free successor. */
  function Shrink(h: Heap, j: nat, size: nat): Heap
    requires j < |h.blocks|
  {
    var rest := h.blocks[j].at + HEADER + size;
    var g := h.(blocks := SplitAt(h.blocks, j, rest, true));
    var merges := j + 1 < |h.blocks| && !h.blocks[j + 1].used;
    var m := if merges then
               g.(blocks := Tiling.Remove(g.blocks, j + 2), free := WaitList.Remove(h.free, h.blocks[j + 1].at),
                  available := h.available - Payload(h, j + 1))
             else g;
    m.(free := [rest] + m.free, available := m.available + (NextAt(m.blocks, j + 1, End(h)) - rest - HEADER))
  }

  /** rt_memheap_realloc of the payload of block `j`; the result is the block to use. */
  function Realloc(h: Heap, j: nat, newSize: nat): (Heap, Option<nat>)
    requires j < |h.blocks|
  {
    var at := h.blocks[j].at;
    var size := Wanted(newSize);
    if newSize == 0 then (Free(h, j), None)
    else if size > Payload(h, j) then
      if GrowsInPlace(h, j, size) then (Grow(h, j, size), Some(at))
      else
        var (g, r) := Alloc(h, size);
        if r.None? || IndexOf(g.blocks, at) == |g.blocks| then (g, None)
        else (Free(g, IndexOf(g.blocks, at)), r)
    else if size + HEADER + MINIALLOC >= Payload(h, j) then (h, Some(at))
    else (Shrink(h, j, size), Some(at))
  }

  // ----- the free list follows the blocks -----

  lemma AtIndex(bs: seq<Block>, end: nat, i: nat)
    requires Tiled(bs, end) && i < |bs|
    ensures IndexOf(bs, bs[i].at) == i
  {
    hide Tiled;
    IndexFound(bs, bs[i].at);
    var k := IndexOf(bs, bs[i].at);
    if k < |bs| { DistinctAt(bs, end, k, i); }
  }

  lemma SplitUnused(bs: seq<Block>, end: nat, j: nat, at: nat, a: nat)
    requires Tiled(bs, end) && j < |bs|
    ensures Unused(SplitAt(bs, j, at, true), a) <==> a == at || (a != bs[j].at && Unused(bs, a))
  {
    hide Tiled;
    var cs := SplitAt(bs, j, at, true);
    assert cs[j + 1].at == at;
    if Unused(bs, a) {
      var i :| 0 <= i < |bs| && bs[i].at == a && !bs[i].used;
      if i < j { assert cs[i] == bs[i]; } else { assert cs[i + 1] == bs[i] || i == j; }
    }
    if Unused(cs, a) {
      var i :| 0 <= i < |cs| && cs[i].at == a && !cs[i].used;
      if i < j { assert cs[i] == bs[i]; DistinctAt(bs, end, i, j); }
      if i > j + 1 { assert cs[i] == bs[i - 1]; DistinctAt(bs, end, i - 1, j); }
    }
  }

  lemma MarkUnusedAt(bs: seq<Block>, end: nat, j: nat, flag: bool, a: nat)
    requires Tiled(bs, end) && j < |bs|
    ensures Unused(bs[j := Block(bs[j].at, flag)], a) <==> (a == bs[j].at && !flag) || (a != bs[j].at && Unused(bs, a))
  {
    hide Tiled;
    var cs := bs[j := Block(bs[j].at, flag)];
    assert cs[j].at == bs[j].at;
    if Unused(bs, a) {
      var i :| 0 <= i < |bs| && bs[i].at == a && !bs[i].used;
      assert cs[i] == bs[i] || i == j;
    }
    if Unused(cs, a) {
      var i :| 0 <= i < |cs| && cs[i].at == a && !cs[i].used;
      DistinctAt(bs, end, i, j);
      assert cs[i] == bs[i] || i == j;
    }
  }

  lemma RemoveUnused(bs: seq<Block>, end: nat, k: nat, a: nat)
    requires Tiled(bs, end) && k < |bs|
    ensures Unused(Tiling.Remove(bs, k), a) <==> a != bs[k].at && Unused(bs, a)
  {
    hide Tiled;
    var cs := Tiling.Remove(bs, k);
    if Unused(bs, a) {
      var i :| 0 <= i < |bs| && bs[i].at == a && !bs[i].used;
      if i < k { assert cs[i] == bs[i]; }
      if i > k { assert cs[i - 1] == bs[i]; }
    }
    if Unused(cs, a) {
      var i :| 0 <= i < |cs| && cs[i].at == a && !cs[i].used;
      var o := if i < k then i else i + 1;
      assert cs[i] == bs[o];
      DistinctAt(bs, end, o, k);
    }
  }

  lemma UsedNotUnused(bs: seq<Block>, end: nat, j: nat)
    requires Tiled(bs, end) && j < |bs|
    ensures Unused(bs, bs[j].at) <==> !bs[j].used
  {
    hide Tiled;
    if Unused(bs, bs[j].at) {
      var i :| 0 <= i < |bs| && bs[i].at == bs[j].at && !bs[i].used;
      DistinctAt(bs, end, i, j);
    }
  }

  lemma InsideNotUnused(bs: seq<Block>, end: nat, j: nat, at: nat)
    requires Tiled(bs, end) && j < |bs| && bs[j].at < at < NextAt(bs, j, end)
    ensures !Unused(bs, at)
  {
    hide Tiled;
    if Unused(bs, at) {
      var i :| 0 <= i < |bs| && bs[i].at == at && !bs[i].used;
      Outside(bs, end, j, i, at);
    }
  }

  /** Splitting block `j`: its offset leaves the list if it was there, the remainder joins. */
  lemma SplitList(bs: seq<Block>, end: nat, j: nat, at: nat, free: seq<nat>)
    requires Tiled(bs, end) && j < |bs| && FreeList(bs, free) && bs[j].at < at < NextAt(bs, j, end)
    ensures FreeList(SplitAt(bs, j, at, true), [at] + WaitList.Remove(free, bs[j].at))
    ensures bs[j].used ==> FreeList(SplitAt(bs, j, at, true), [at] + free)
  {
    hide Tiled, Unused, WaitList.Remove, SplitAt;
    var x := bs[j].at;
    RemoveElements(free, x);
    InsideNotUnused(bs, end, j, at);
    UsedNotUnused(bs, end, j);
    DistinctCons(at, WaitList.Remove(free, x));
    DistinctCons(at, free);
    forall a ensures Unused(SplitAt(bs, j, at, true), a) <==> a == at || (a != x && a in free) {
      SplitUnused(bs, end, j, at, a);
    }
  }

  lemma TakeList(bs: seq<Block>, end: nat, j: nat, free: seq<nat>)
    requires Tiled(bs, end) && j < |bs| && FreeList(bs, free)
    ensures FreeList(bs[j := Block(bs[j].at, true)], WaitList.Remove(free, bs[j].at))
  {
    hide Tiled, Unused, WaitList.Remove;
    RemoveElements(free, bs[j].at);
    forall a ensures Unused(bs[j := Block(bs[j].at, true)], a) <==> a != bs[j].at && a in free {
      MarkUnusedAt(bs, end, j, true, a);
    }
  }

  lemma GiveList(bs: seq<Block>, end: nat, j: nat, free: seq<nat>)
    requires Tiled(bs, end) && j < |bs| && FreeList(bs, free) && bs[j].used
    ensures FreeList(bs[j := Block(bs[j].at, false)], [bs[j].at] + free)
  {
    hide Tiled, Unused;
    UsedNotUnused(bs, end, j);
    DistinctCons(bs[j].at, free);
    forall a ensures Unused(bs[j := Block(bs[j].at, false)], a) <==> a == bs[j].at || a in free {
      MarkUnusedAt(bs, end, j, false, a);
    }
  }

  /** Absorbing block `k`: a free one leaves the list, a used one was not on it. */
  lemma RemoveList(bs: seq<Block>, end: nat, k: nat, free: seq<nat>)
    requires Tiled(bs, end) && k < |bs| && FreeList(bs, free)
    ensures FreeList(Tiling.Remove(bs, k), WaitList.Remove(free, bs[k].at))
    ensures bs[k].used ==> FreeList(Tiling.Remove(bs, k), free)
  {
    hide Tiled, Unused, WaitList.Remove, Tiling.Remove;
    RemoveElements(free, bs[k].at);
    UsedNotUnused(bs, end, k);
    forall a ensures Unused(Tiling.Remove(bs, k), a) <==> a != bs[k].at && a in free {
      RemoveUnused(bs, end, k, a);
    }
  }

  // ----- rt_memheap_alloc -----

  lemma {:induction false} FindFreeOk(h: Heap, free: seq<nat>, size: nat)
    ensures FindFree(h, free, size).Some? ==>
      FindFree(h, free, size).value in free && SizeAt(h, FindFree(h, free, size).value) >= size
    ensures FindFree(h, free, size).None? ==> forall a :: a in free ==> SizeAt(h, a) < size
  {
    if free != [] && SizeAt(h, free[0]) < size {
      FindFreeOk(h, free[1..], size);
      assert free == [free[0]] + free[1..];
    }
  }

  ghost predicate Candidate(h: Heap, j: nat, size: nat) {
    j < |h.blocks| && !h.blocks[j].used && Payload(h, j) >= size && size >= MINIALLOC
  }

  lemma TakeInv(h: Heap, j: nat, size: nat)
    requires Inv(h) && Candidate(h, j, size)
    ensures Inv(TakeBlock(h, j, size))
  {
    hide Tiled, Coalesced, FreeList, Sum, SplitAt, WaitList.Remove;
    var at := h.blocks[j].at;
    var rest := at + size + HEADER;
    TakeCoalesced(h, j, size);
    if Splits(h, j, size) {
      SplitTiled(h.blocks, j, rest, true, End(h));
      SplitSum(h.blocks, j, rest, true, End(h), false, HEADER);
      SplitList(h.blocks, End(h), j, rest, h.free);
    } else {
      MarkTiled(h.blocks, j, true, End(h));
      MarkSum(h.blocks, j, true, End(h), false, HEADER);
      TakeList(h.blocks, End(h), j, h.free);
    }
  }

  lemma TakeCoalesced(h: Heap, j: nat, size: nat)
    requires Coalesced(h.blocks) && j < |h.blocks| && !h.blocks[j].used
    ensures Coalesced(TakeBlock(h, j, size).blocks)
  {
    var cs := TakeBlock(h, j, size).blocks;
    forall i | 0 <= i < |cs| - 1 ensures cs[i].used || cs[i + 1].used {
      if Splits(h, j, size) {
        if i < j - 1 { assert h.blocks[i].used || h.blocks[i + 1].used; }
        else if i > j { assert h.blocks[i - 1].used || h.blocks[i].used; }
      } else {
        assert h.blocks[i].used || h.blocks[i + 1].used;
      }
    }
  }

  /** What the search finds is a free block that fits. */
  lemma FoundCandidate(h: Heap, size: nat)
    requires Inv(h) && FindFree(h, h.free, size).Some? && size >= MINIALLOC
    ensures var a := FindFree(h, h.free, size).value;
      Candidate(h, IndexOf(h.blocks, a), size) && h.blocks[IndexOf(h.blocks, a)].at == a
  {
    hide Tiled, Coalesced, Sum, FindFree;
    var a := FindFree(h, h.free, size).value;
    FindFreeOk(h, h.free, size);
    assert Unused(h.blocks, a);
    var i :| 0 <= i < |h.blocks| && h.blocks[i].at == a && !h.blocks[i].used;
    AtIndex(h.blocks, End(h), i);
  }

  lemma WantedEnough(size: nat)
    ensures Wanted(size) >= MINIALLOC && Wanted(size) >= size
  {
  }

  lemma AllocInv(h: Heap, size: nat)
    requires Inv(h)
    ensures Inv(Alloc(h, size).0)
  {
    hide Inv, FindFree, IndexOf, TakeBlock, Wanted;
    WantedEnough(size);
    if FindFree(h, h.free, Wanted(size)).Some? {
      FoundCandidate(h, Wanted(size));
      TakeInv(h, IndexOf(h.blocks, FindFree(h, h.free, Wanted(size)).value), Wanted(size));
    }
  }

  /** A request is refused exactly when it is not below the total of free bytes, or no free block
      has room for it. */
  lemma AllocRefuses(h: Heap, size: nat)
    requires Inv(h)
    ensures Alloc(h, size).1.None? <==>
      Wanted(size) >= h.available || forall j :: 0 <= j < |h.blocks| && !h.blocks[j].used ==>
          Payload(h, j) < Wanted(size)
  {
    hide Tiled, Coalesced, Sum, TakeBlock, Wanted;
    var w := Wanted(size);
    WantedEnough(size);
    FindFreeOk(h, h.free, w);
    if FindFree(h, h.free, w).Some? {
      FoundCandidate(h, w);
    } else {
      forall j | 0 <= j < |h.blocks| && !h.blocks[j].used ensures Payload(h, j) < w {
        assert Unused(h.blocks, h.blocks[j].at);
        AtIndex(h.blocks, End(h), j);
      }
    }
  }

  // ----- rt_memheap_free -----

  /** As Inv, but the free block `j` may have a free successor. */
  ghost predicate Open(h: Heap, j: nat) {
    && Tiled(h.blocks, End(h)) && FreeList(h.blocks, h.free) && h.available == FreeBytes(h.blocks, End(h))
    && h.poolSize - h.available <= h.maxUsed
    && j < |h.blocks| && !h.blocks[j].used
    && forall i :: 0 <= i < |h.blocks| - 1 && i != j ==> h.blocks[i].used || h.blocks[i + 1].used
  }

  lemma MergeNextInv(h: Heap, j: nat)
    requires Open(h, j)
    ensures Inv(MergeNext(h, j))
  {
    hide Tiled, FreeList, Sum, WaitList.Remove;
    if j + 1 < |h.blocks| && !h.blocks[j + 1].used {
      JoinTiled(h.blocks, j, End(h));
      JoinSum(h.blocks, j, End(h), false, HEADER);
      RemoveList(h.blocks, End(h), j + 1, h.free);
      var cs := MergeNext(h, j).blocks;
      forall i | 0 <= i < |cs| - 1 ensures cs[i].used || cs[i + 1].used {
        if i < j { assert h.blocks[i].used || h.blocks[i + 1].used; }
        else { assert h.blocks[i + 1].used || h.blocks[i + 2].used; }
      }
    }
  }

  lemma PayloadPositive(h: Heap, j: nat)
    requires Tiled(h.blocks, End(h)) && j < |h.blocks|
    ensures Payload(h, j) >= 0
  {
  }

  lemma FreeLeftInv(h: Heap, j: nat)
    requires Inv(h) && 0 < j < |h.blocks| && h.blocks[j].used && !h.blocks[j - 1].used
    ensures Inv(Free(h, j))
  {
    hide Tiled, FreeList, Sum, MergeNext;
    var g := h.(blocks := Tiling.Remove(h.blocks, j), available := h.available + Payload(h, j) + HEADER);
    PayloadPositive(h, j);
    JoinTiled(h.blocks, j - 1, End(h));
    JoinSum(h.blocks, j - 1, End(h), false, HEADER);
    RemoveList(h.blocks, End(h), j, h.free);
    assert Open(g, j - 1) by {
      forall i | 0 <= i < |g.blocks| - 1 && i != j - 1 ensures g.blocks[i].used || g.blocks[i + 1].used {
        if i < j - 1 { assert h.blocks[i].used || h.blocks[i + 1].used; }
        else { assert h.blocks[i + 1].used || h.blocks[i + 2].used; }
      }
    }
    MergeNextInv(g, j - 1);
  }

  /** Listing the block before or after its successor is taken off the list is the same. */
  lemma ListFirst(h: Heap, j: nat, at: nat)
    requires j < |h.blocks| && (j + 1 < |h.blocks| ==> at != h.blocks[j + 1].at)
    ensures var g := MergeNext(h, j); g.(free := [at] + g.free) == MergeNext(h.(free := [at] + h.free), j)
  {
    if j + 1 < |h.blocks| {
      assert ([at] + h.free)[1..] == h.free;
      assert WaitList.Remove([at] + h.free, h.blocks[j + 1].at) == [at] + WaitList.Remove(h.free, h.blocks[j + 1].at);
    }
  }

  lemma FreeRightInv(h: Heap, j: nat)
    requires Inv(h) && j < |h.blocks| && h.blocks[j].used && (j > 0 ==> h.blocks[j - 1].used)
    ensures Inv(Free(h, j))
  {
    hide Tiled, FreeList, Sum, MergeNext;
    var at := h.blocks[j].at;
    var g := h.(blocks := h.blocks[j := Block(at, false)], available := h.available + Payload(h, j));
    PayloadPositive(h, j);
    MarkTiled(h.blocks, j, false, End(h));
    MarkSum(h.blocks, j, false, End(h), false, HEADER);
    GiveList(h.blocks, End(h), j, h.free);
    if j + 1 < |h.blocks| { DistinctAt(h.blocks, End(h), j, j + 1); }
    var listed := g.(free := [at] + g.free);
    assert Open(listed, j) by {
      forall i | 0 <= i < |g.blocks| - 1 && i != j ensures g.blocks[i].used || g.blocks[i + 1].used {
        assert h.blocks[i].used || h.blocks[i + 1].used;
      }
    }
    MergeNextInv(listed, j);
    ListFirst(g, j, at);
  }

  lemma FreeInv(h: Heap, j: nat)
    requires Inv(h) && j < |h.blocks| && h.blocks[j].used
    ensures Inv(Free(h, j))
  {
    hide Inv, Free;
    if j > 0 && !h.blocks[j - 1].used { FreeLeftInv(h, j); } else { FreeRightInv(h, j); }
  }

  // ----- rt_memheap_realloc -----

  lemma GrowInv(h: Heap, j: nat, size: nat)
    requires Inv(h) && j < |h.blocks| && h.blocks[j].used && GrowsInPlace(h, j, size) && size >= Payload(h, j)
    ensures Inv(Grow(h, j, size))
  {
    hide Tiled, FreeList, Sum, WaitList.Remove, Coalesced, SplitAt, Tiling.Remove;
    var cs, rest := Tiling.Remove(h.blocks, j + 1), h.blocks[j].at + HEADER + size;
    GrowShape(h, j, size);
    PayloadPositive(h, j);
    JoinTiled(h.blocks, j, End(h));
    JoinSum(h.blocks, j, End(h), false, HEADER);
    RemoveList(h.blocks, End(h), j + 1, h.free);
    SplitTiled(cs, j, rest, true, End(h));
    SplitSum(cs, j, rest, true, End(h), false, HEADER);
    SplitList(cs, End(h), j, rest, WaitList.Remove(h.free, h.blocks[j + 1].at));
  }

  lemma GrowShape(h: Heap, j: nat, size: nat)
    requires Coalesced(h.blocks) && j + 1 < |h.blocks| && h.blocks[j].used && !h.blocks[j + 1].used
    ensures var cs := Tiling.Remove(h.blocks, j + 1);
      && |cs| == |h.blocks| - 1 && cs[j] == h.blocks[j] && NextAt(cs, j, End(h)) == NextAt(h.blocks, j + 1, End(h))
    ensures Coalesced(Grow(h, j, size).blocks)
  {
    var cs := Tiling.Remove(h.blocks, j + 1);
    var ds := Grow(h, j, size).blocks;
    forall i | 0 <= i < |ds| - 1 ensures ds[i].used || ds[i + 1].used {
      if i < j { assert ds[i] == h.blocks[i]; assert h.blocks[i].used || h.blocks[i + 1].used; }
      else if i > j { assert ds[i + 1] == h.blocks[i + 1]; assert h.blocks[i].used || h.blocks[i + 1].used; }
    }
  }

  /** A shrink is a split whose remainder then absorbs a free successor. */
  lemma ShrinkAsMerge(h: Heap, j: nat, size: nat)
    requires j < |h.blocks| && (j + 1 < |h.blocks| ==> h.blocks[j].at + HEADER + size != h.blocks[j + 1].at)
    ensures var rest := h.blocks[j].at + HEADER + size;
      Shrink(h, j, size) == MergeNext(h.(blocks := SplitAt(h.blocks, j, rest, true), free := [rest] + h.free,
                                         available := h.available + (Payload(h, j) - size - HEADER)), j + 1)
  {
    var rest := h.blocks[j].at + HEADER + size;
    var g := h.(blocks := SplitAt(h.blocks, j, rest, true), available := h.available + (Payload(h, j) - size - HEADER));
    assert j + 1 < |h.blocks| ==> g.blocks[j + 2] == h.blocks[j + 1];
    ListFirst(g, j + 1, rest);
  }

  lemma ShrinkInv(h: Heap, j: nat, size: nat)
    requires Inv(h) && j < |h.blocks| && h.blocks[j].used && size + HEADER + MINIALLOC < Payload(h, j)
    ensures Inv(Shrink(h, j, size))
  {
    hide Tiled, FreeList, Sum, MergeNext, Shrink;
    var rest := h.blocks[j].at + HEADER + size;
    var g := h.(blocks := SplitAt(h.blocks, j, rest, true), free := [rest] + h.free,
                available := h.available + (Payload(h, j) - size - HEADER));
    ShrinkAsMerge(h, j, size);
    SplitTiled(h.blocks, j, rest, true, End(h));
    SplitSum(h.blocks, j, rest, true, End(h), false, HEADER);
    SplitList(h.blocks, End(h), j, rest, h.free);
    assert Open(g, j + 1) by {
      forall i | 0 <= i < |g.blocks| - 1 && i != j + 1 ensures g.blocks[i].used || g.blocks[i + 1].used {
        if i < j - 1 { assert h.blocks[i].used || h.blocks[i + 1].used; }
        else if i > j + 1 { assert h.blocks[i - 1].used || h.blocks[i].used; }
      }
    }
    MergeNextInv(g, j + 1);
  }

  // ----- the allocations in force -----

  lemma TakeLive(h: Heap, j: nat, size: nat, a: nat, n: nat)
    requires Tiled(h.blocks, End(h)) && Candidate(h, j, size)
    ensures var g := TakeBlock(h, j, size);
      && End(g) == End(h) && j < |g.blocks| && g.blocks[j] == Block(h.blocks[j].at, true) && Payload(g, j) >= size
      && (Live(g.blocks, End(g), a, n) <==>
            (a != h.blocks[j].at && Live(h.blocks, End(h), a, n))
            || (a == h.blocks[j].at && n == NextAt(g.blocks, j, End(g))))
  {
    hide Tiled, Live, WaitList.Remove;
    if Splits(h, j, size) {
      SplitLive(h.blocks, End(h), j, h.blocks[j].at + size + HEADER, a, n);
    } else {
      MarkLive(h.blocks, End(h), j, true, a, n);
    }
  }

  /** rt_memheap_alloc hands out a free block with room for the request and disturbs no allocation
      in force. */
  lemma AllocLive(h: Heap, size: nat, a: nat, n: nat)
    requires Inv(h) && Alloc(h, size).1.Some?
    ensures var (g, r) := Alloc(h, size); var j := IndexOf(h.blocks, r.value);
      && End(g) == End(h) && j < |g.blocks| && g.blocks[j] == Block(r.value, true) && Payload(g, j) >= size
      && !Live(h.blocks, End(h), r.value, n)
      && (Live(g.blocks, End(g), a, n) <==>
            Live(h.blocks, End(h), a, n) || (a == r.value && n == NextAt(g.blocks, j, End(g))))
  {
    hide Tiled, Live, FreeList, Coalesced, Sum, FindFree, IndexOf, TakeBlock, Wanted;
    WantedEnough(size);
    FoundCandidate(h, Wanted(size));
    var j := IndexOf(h.blocks, Alloc(h, size).1.value);
    NotLive(h.blocks, End(h), j, n);
    TakeLive(h, j, Wanted(size), a, n);
  }

  lemma MergeNextLive(h: Heap, j: nat, a: nat, n: nat)
    requires j < |h.blocks| && !h.blocks[j].used
    ensures Live(MergeNext(h, j).blocks, End(h), a, n) <==> Live(h.blocks, End(h), a, n)
  {
    hide Live, WaitList.Remove;
    if j + 1 < |h.blocks| && !h.blocks[j + 1].used { JoinLive(h.blocks, End(h), j, a, n); }
  }

  /** rt_memheap_free ends one allocation and disturbs no other. */
  lemma FreeLive(h: Heap, j: nat, a: nat, n: nat)
    requires Inv(h) && j < |h.blocks| && h.blocks[j].used
    ensures End(Free(h, j)) == End(h)
    ensures Live(Free(h, j).blocks, End(h), a, n) <==> Live(h.blocks, End(h), a, n) && a != h.blocks[j].at
  {
    hide Tiled, Live, FreeList, Coalesced, Sum, WaitList.Remove;
    if j > 0 && !h.blocks[j - 1].used {
      AbsorbLive(h.blocks, End(h), j - 1, a, n);
      MergeNextLive(h.(blocks := Tiling.Remove(h.blocks, j), available := h.available + Payload(h, j) + HEADER),
          j - 1, a, n);
    } else {
      MarkLive(h.blocks, End(h), j, false, a, n);
      MergeNextLive(h.(blocks := h.blocks[j := Block(h.blocks[j].at, false)],
                       available := h.available + Payload(h, j)), j, a, n);
    }
  }

  /** In-place growth and shrinking move the end of one allocation and disturb no other. */
  lemma GrowLive(h: Heap, j: nat, size: nat, a: nat, n: nat)
    requires Inv(h) && j + 1 < |h.blocks| && h.blocks[j].used && !h.blocks[j + 1].used
    ensures Live(Grow(h, j, size).blocks, End(h), a, n) <==>
      (a == h.blocks[j].at && n == h.blocks[j].at + HEADER + size) ||
          (a != h.blocks[j].at && Live(h.blocks, End(h), a, n))
  {
    hide Tiled, Live, FreeList, Coalesced, Sum, WaitList.Remove;
    var cs := Tiling.Remove(h.blocks, j + 1);
    JoinTiled(h.blocks, j, End(h));
    SplitLive(cs, End(h), j, h.blocks[j].at + HEADER + size, a, n);
    if a != h.blocks[j].at {
      AbsorbLive(h.blocks, End(h), j, a, n);
      NotLive(h.blocks, End(h), j + 1, n);
    }
  }

  lemma ShrinkLive(h: Heap, j: nat, size: nat, a: nat, n: nat)
    requires Inv(h) && j < |h.blocks| && h.blocks[j].used && size + HEADER + MINIALLOC < Payload(h, j)
    ensures Live(Shrink(h, j, size).blocks, End(h), a, n) <==>
      (a == h.blocks[j].at && n == h.blocks[j].at + HEADER + size) ||
          (a != h.blocks[j].at && Live(h.blocks, End(h), a, n))
  {
    hide Tiled, Live, FreeList, Coalesced, Sum, MergeNext, Shrink;
    var rest := h.blocks[j].at + HEADER + size;
    ShrinkAsMerge(h, j, size);
    SplitLive(h.blocks, End(h), j, rest, a, n);
    MergeNextLive(h.(blocks := SplitAt(h.blocks, j, rest, true), free := [rest] + h.free,
                     available := h.available + (Payload(h, j) - size - HEADER)), j + 1, a, n);
  }

  /** After the request for a new block, the old one is still there to be freed. */
  lemma MovedFrom(h: Heap, j: nat, size: nat)
    requires Inv(h) && j < |h.blocks| && h.blocks[j].used && Alloc(h, size).1.Some?
    ensures var g := Alloc(h, size).0; var i := IndexOf(g.blocks, h.blocks[j].at);
      i < |g.blocks| && g.blocks[i] == Block(h.blocks[j].at, true)
  {
    hide Inv, Alloc, IndexOf;
    var g, a, n := Alloc(h, size).0, h.blocks[j].at, NextAt(h.blocks, j, End(h));
    assert LiveAt(h.blocks, End(h), j, a, n);
    AllocLive(h, size, a, n);
    AllocInv(h, size);
    var k :| 0 <= k < |g.blocks| && LiveAt(g.blocks, End(g), k, a, n);
    TiledOf(g);
    AtIndex(g.blocks, End(g), k);
  }

  lemma TiledOf(h: Heap)
    requires Inv(h)
    ensures Tiled(h.blocks, End(h))
  {
  }

  lemma ReallocInv(h: Heap, j: nat, newSize: nat)
    requires Inv(h) && j < |h.blocks| && h.blocks[j].used
    ensures Inv(Realloc(h, j, newSize).0)
  {
    hide Inv, Alloc, Free, Grow, Shrink, Wanted, IndexOf;
    var size := Wanted(newSize);
    if newSize == 0 {
      FreeInv(h, j);
    } else if size > Payload(h, j) {
      if GrowsInPlace(h, j, size) {
        GrowInv(h, j, size);
      } else {
        AllocInv(h, size);
        if Alloc(h, size).1.Some? {
          MovedFrom(h, j, size);
          FreeInv(Alloc(h, size).0, IndexOf(Alloc(h, size).0.blocks, h.blocks[j].at));
        }
      }
    } else if size + HEADER + MINIALLOC < Payload(h, j) {
      ShrinkInv(h, j, size);
    }
  }

  // ----- every run -----

  datatype Op = AllocOp(size: nat) | FreeOp(block: nat) | ReallocOp(block: nat, size: nat)

  function Step(h: Heap, op: Op): Heap {
    match op
    case AllocOp(size) => Alloc(h, size).0
    case FreeOp(j) => if j < |h.blocks| && h.blocks[j].used then Free(h, j) else h
    case ReallocOp(j, size) => if j < |h.blocks| && h.blocks[j].used then Realloc(h, j, size).0 else h
  }

  function Run(h: Heap, ops: seq<Op>): Heap
    decreases |ops|
  {
    if ops == [] then h else Run(Step(h, ops[0]), ops[1..])
  }

  /** The peak only rises, and nothing else about the pool size changes. */
  lemma StepPeak(h: Heap, op: Op)
    ensures Step(h, op).maxUsed >= h.maxUsed && Step(h, op).poolSize == h.poolSize
  {
    hide FindFree, IndexOf, Wanted, WaitList.Remove, Tiling.Remove, SplitAt;
  }

  lemma StepInv(h: Heap, op: Op)
    requires Inv(h)
    ensures Inv(Step(h, op))
  {
    hide Inv, Alloc, Free, Realloc;
    match op
    case AllocOp(size) => AllocInv(h, size);
    case FreeOp(j) => if j < |h.blocks| && h.blocks[j].used { FreeInv(h, j); }
    case ReallocOp(j, size) => if j < |h.blocks| && h.blocks[j].used { ReallocInv(h, j, size); }
  }

  /** Every run keeps the tiling, the free list and the byte count, and the recorded peak bounds
      the use after every prefix of the run. */
  lemma {:induction false} RunInv(h: Heap, ops: seq<Op>, k: nat)
    requires Inv(h) && k <= |ops|
    ensures Inv(Run(h, ops))
    ensures Run(h, ops).poolSize - Run(h, ops[..k]).available <= Run(h, ops).maxUsed
    ensures Run(h, ops).maxUsed >= h.maxUsed && Run(h, ops).poolSize == h.poolSize
    decreases |ops|
  {
    hide Step, Inv;
    if ops == [] {
      PeakOf(h);
    } else {
      StepInv(h, ops[0]);
      StepPeak(h, ops[0]);
      RunInv(Step(h, ops[0]), ops[1..], if k == 0 then 0 else k - 1);
      if k == 0 {
        PeakOf(h);
      } else {
        assert ops[..k][1..] == ops[1..][..k - 1];
      }
    }
  }

  lemma PeakOf(h: Heap)
    requires Inv(h)
    ensures h.poolSize - h.available <= h.maxUsed
  {
  }

  /** rt_memheap_init on a pool of an aligned size */
  function Init(poolSize: nat): Heap
    requires poolSize >= 2 * HEADER
  {
    Heap(poolSize, [Block(0, false)], [0], poolSize - 2 * HEADER, 2 * HEADER)
  }

  lemma InitInv(poolSize: nat)
    requires poolSize >= 2 * HEADER
    ensures Inv(Init(poolSize))
  {
    var h := Init(poolSize);
    assert h.blocks[0].at == 0;
    assert Sum(h.blocks, 1, End(h), false, HEADER) == 0;
  }

  lemma MemHeapCorrect(poolSize: nat, ops: seq<Op>, k: nat)
    requires poolSize >= 2 * HEADER && k <= |ops|
    ensures var h := Run(Init(poolSize), ops);
      && Tiled(h.blocks, poolSize - HEADER) && Coalesced(h.blocks) && FreeList(h.blocks, h.free)
      && h.available == FreeBytes(h.blocks, poolSize - HEADER)
      && poolSize - Run(Init(poolSize), ops[..k]).available <= h.maxUsed
  {
    hide Tiled, Coalesced, FreeList, FreeBytes, Run;
    InitInv(poolSize);
    RunInv(Init(poolSize), ops, k);
  }

  // ----- alignment -----

  predicate Aligned(bs: seq<Block>) { forall i :: 0 <= i < |bs| ==> bs[i].at % ALIGN == 0 }

  /** The least allocation of 12 bytes breaks the 8-byte grid: a split keeps it exactly when more
      than 8 bytes were asked for. */
  lemma SplitAligned(h: Heap, j: nat, size: nat)
    requires Aligned(h.blocks) && j < |h.blocks| && Splits(h, j, Wanted(size))
    ensures Aligned(TakeBlock(h, j, Wanted(size)).blocks) <==> size > 8
  {
    var cs := TakeBlock(h, j, Wanted(size)).blocks;
    assert cs[j + 1].at == h.blocks[j].at + Wanted(size) + HEADER;
    WantedGrid(size);
    if size > 8 {
      forall i | 0 <= i < |cs| ensures cs[i].at % ALIGN == 0 {
        if i <= j { assert cs[i].at == h.blocks[i].at; }
        if i > j + 1 { assert cs[i] == h.blocks[i - 1]; }
      }
    }
  }

  lemma WantedGrid(size: nat)
    ensures Wanted(size) % ALIGN == 0 <==> size > 8
  {
  }

  /** One byte, then eight: the second payload of a fresh pool starts at offset 60. */
  lemma SecondPayloadMisaligned()
    ensures var h := Alloc(Init(1000), 1).0;
      !Aligned(h.blocks) && Alloc(h, 8).1 == Some(36) && (36 + HEADER) % ALIGN != 0
  {
    var h := Init(1000);
    assert h.free == [0] && IndexOf(h.blocks, 0) == 0 && SizeAt(h, 0) == 1000 - 2 * HEADER;
    assert FindFree(h, h.free, 12) == Some(0);
    var g := Alloc(h, 1).0;
    assert [0][1..] == [] && WaitList.Remove([0], 0) == [];
    assert g.blocks == [Block(0, true), Block(36, false)] && g.free == [36] by {
      assert g == TakeBlock(h, 0, 12);
    }
    assert g.blocks[1].at % ALIGN != 0;
    assert g.blocks[1..] == [Block(36, false)] && IndexOf(g.blocks, 36) == 1;
    assert FindFree(g, g.free, 12) == Some(36);
  }
}
