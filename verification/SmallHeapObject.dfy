/** The heap as mem.c keeps it: headers in memory, linked by offsets, updated in place. */
module SmallHeapObject {
  import opened Basics
  import opened Tiling
  import opened SmallHeap

  datatype Header = Header(used: bool, next: nat, prev: nat)
  type Memory = map<nat, Header>   // what lies at each offset a header was written to

  // ----- headers that spell out a tiling -----

  predicate Here(m: Memory, bs: seq<Block>, end: nat, i: nat)
    requires i < |bs|
  {
    bs[i].at in m && m[bs[i].at] == Header(bs[i].used, NextAt(bs, i, end), PrevAt(bs, i))
  }

  /** Forward and back links of every block are right; of the end stub only its own link is. */
  ghost predicate Linked(m: Memory, bs: seq<Block>, end: nat) {
    && (forall i :: 0 <= i < |bs| ==> Here(m, bs, end, i))
    && end in m && m[end].used && m[end].next == end
  }

  function SetNext(m: Memory, at: nat, next: nat): Memory { if at in m then m[at := m[at].(next := next)] else m }
  function SetPrev(m: Memory, at: nat, prev: nat): Memory { if at in m then m[at := m[at].(prev := prev)] else m }

  /** Unlinking `q`, which follows `p`. */
  function JoinMem(m: Memory, p: nat, q: nat): Memory
    requires p in m && q in m
  {
    var n := m[q].next;
    SetPrev(SetNext(m, p, n), n, p)
  }

  lemma JoinLinked(m: Memory, bs: seq<Block>, end: nat, k: nat)
    requires Linked(m, bs, end) && Tiled(bs, end) && k + 1 < |bs|
    ensures bs[k].at in m && bs[k + 1].at in m && m[bs[k + 1].at].next == NextAt(bs, k + 1, end)
    ensures Linked(JoinMem(m, bs[k].at, bs[k + 1].at), Remove(bs, k + 1), end)
  {
    hide Tiled;
    assert Here(m, bs, end, k) && Here(m, bs, end, k + 1);
    var cs := Remove(bs, k + 1);
    var m' := JoinMem(m, bs[k].at, bs[k + 1].at);
    forall i | 0 <= i < |cs| ensures Here(m', cs, end, i) {
      var o := if i <= k then i else i + 1;
      assert cs[i] == bs[o] && Here(m, bs, end, o);
      DistinctAt(bs, end, o, k);
      BelowEnd(bs, end, o);
      if k + 2 < |bs| { DistinctAt(bs, end, o, k + 2); BelowEnd(bs, end, k + 2); }
    }
    BelowEnd(bs, end, k);
  }

  /** A new header at `at` splits the block at `p`. */
  function SplitMem(m: Memory, p: nat, at: nat, end: nat): Memory
    requires p in m
  {
    var n := m[p].next;
    var m1 := m[at := Header(false, n, p)];
    var m2 := m1[p := Header(true, at, m[p].prev)];
    if n != end then SetPrev(m2, n, at) else m2
  }

  lemma SplitLinked(m: Memory, bs: seq<Block>, end: nat, j: nat, at: nat)
    requires Linked(m, bs, end) && Tiled(bs, end) && j < |bs| && bs[j].at < at < NextAt(bs, j, end)
    ensures bs[j].at in m && m[bs[j].at].next == NextAt(bs, j, end)
    ensures Linked(SplitMem(m, bs[j].at, at, end), SplitAt(bs, j, at, true), end)
  {
    hide Tiled;
    assert Here(m, bs, end, j);
    var cs := SplitAt(bs, j, at, true);
    var m' := SplitMem(m, bs[j].at, at, end);
    NextBelow(bs, end, j);
    forall i | 0 <= i < |cs| ensures Here(m', cs, end, i) {
      if i == j + 1 {
        assert cs[i] == Block(at, false);
      } else {
        var o := if i <= j then i else i - 1;
        assert cs[i].at == bs[o].at && Here(m, bs, end, o);
        Outside(bs, end, j, o, at);
        DistinctAt(bs, end, o, j);
        BelowEnd(bs, end, o);
        if j + 1 < |bs| { DistinctAt(bs, end, o, j + 1); BelowEnd(bs, end, j + 1); }
      }
    }
    BelowEnd(bs, end, j);
  }

  lemma MarkLinked(m: Memory, bs: seq<Block>, end: nat, j: nat, used: bool)
    requires Linked(m, bs, end) && Tiled(bs, end) && j < |bs|
    ensures bs[j].at in m
    ensures Linked(m[bs[j].at := m[bs[j].at].(used := used)], bs[j := Block(bs[j].at, used)], end)
  {
    hide Tiled;
    assert Here(m, bs, end, j);
    var cs := bs[j := Block(bs[j].at, used)];
    var m' := m[bs[j].at := m[bs[j].at].(used := used)];
    forall i | 0 <= i < |cs| ensures Here(m', cs, end, i) {
      assert Here(m, bs, end, i);
      DistinctAt(bs, end, i, j);
    }
    BelowEnd(bs, end, j);
  }

  class HeapMem {
    const memSize: nat
    var mem: Memory
    var lfree: nat
    var usedMem: int
    ghost var blocks: seq<Block>

    ghost function View(): Heap
      reads this
    {
      Heap(memSize, blocks, lfree, usedMem)
    }

    ghost predicate Valid()
      reads this
    {
      memSize >= MIN_ALIGNED && SmallHeap.Inv(View()) && Linked(mem, blocks, End(View()))
    }

    /** rt_system_heap_init on an aligned region */
    constructor (size: nat)
      requires OnGrid(size) && size >= MIN_ALIGNED
      ensures Valid() && View() == Init(size)
    {
      memSize := size;
      mem := map[0 := Header(false, size + HEADER, 0), size + HEADER := Header(true, size + HEADER, size + HEADER)];
      lfree, usedMem, blocks := 0, 0, [Block(0, false)];
      new;
      InitInv(size);
    }

    /** plug_holes; `j` is the block that starts at `at`. */
    method PlugHoles(at: nat, ghost j: nat)
      requires Tiled(blocks, End(View())) && Linked(mem, blocks, End(View()))
      requires j < |blocks| && blocks[j] == Block(at, false)
      modifies this
      ensures View() == SmallHeap.PlugHoles(old(View()), j)
      ensures Linked(mem, blocks, End(View()))
    {
      hide Tiled, Linked, Join, JoinMem;
      PlugNext(at, j);
      PlugPrevious(at, j);
    }

    method PlugNext(at: nat, ghost j: nat)
      requires Tiled(blocks, End(View())) && Linked(mem, blocks, End(View()))
      requires j < |blocks| && blocks[j] == Block(at, false)
      modifies this
      ensures View() == PlugForward(old(View()), j)
      ensures Tiled(blocks, End(View())) && Linked(mem, blocks, End(View()))
      ensures j < |blocks| && blocks[j] == Block(at, false)
    {
      hide Tiled, Linked, JoinMem;
      NeighbourFacts(mem, blocks, End(View()), j);
      var n := mem[at].next;
      if at != n && !mem[n].used && n != memSize + HEADER {
        JoinLinked(mem, blocks, End(View()), j);
        JoinTiled(blocks, j, End(View()));
        if lfree == n { lfree := at; }
        mem := JoinMem(mem, at, n);
        blocks := Remove(blocks, j + 1);
      }
    }

    method PlugPrevious(at: nat, ghost j: nat)
      requires Tiled(blocks, End(View())) && Linked(mem, blocks, End(View()))
      requires j < |blocks| && blocks[j] == Block(at, false)
      modifies this
      ensures View() == PlugBackward(old(View()), j)
      ensures Linked(mem, blocks, End(View()))
    {
      hide Tiled, Linked, JoinMem;
      NeighbourFacts(mem, blocks, End(View()), j);
      var p := mem[at].prev;
      if p != at && !mem[p].used {
        JoinLinked(mem, blocks, End(View()), j - 1);
        if lfree == at { lfree := p; }
        mem := JoinMem(mem, p, at);
        blocks := Remove(blocks, j);
      }
    }

    /** rt_free of the payload behind the header at `at`. */
    method Free(at: nat, ghost j: nat)
      requires Valid() && j < |blocks| && blocks[j] == Block(at, true)
      modifies this
      ensures Valid() && View() == SmallHeap.Free(old(View()), j)
    {
      hide Tiled, Linked, SmallHeap.Inv, SmallHeap.PlugHoles;
      ghost var was := View();
      TiledOf(was);
      FreeInv(was, j);
      NeighbourFacts(mem, blocks, End(was), j);
      MarkLinked(mem, blocks, End(was), j, false);
      MarkTiled(blocks, j, false, End(was));
      mem := mem[at := mem[at].(used := false)];
      blocks := blocks[j := Block(at, false)];
      if at < lfree { lfree := at; }
      usedMem := usedMem - (mem[at].next - at);
      assert View() == Release(was, j);
      PlugHoles(at, j);
      assert View() == SmallHeap.Free(was, j);
    }

    /** The first-fit loop: the offset of the block found. */
    method Find(size: nat) returns (r: Option<nat>, ghost j: Option<nat>)
      requires Valid() && size <= memSize
      ensures j == FindFit(blocks, IndexOf(blocks, lfree), size, memSize - size, End(View()))
      ensures r == if j.None? then None else Some(blocks[j.value].at)
    {
      ghost var end := End(View());
      ghost var i := IndexOf(blocks, lfree);
      StartFacts(View());
      hide SmallHeap.Inv, Tiled, IndexOf;
      var ptr := lfree;
      while ptr < memSize - size
        invariant i <= |blocks| && ptr == (if i < |blocks| then blocks[i].at else end)
        invariant FindFit(blocks, i, size, memSize - size, end)
               == FindFit(blocks, IndexOf(blocks, lfree), size, memSize - size, end)
        decreases |blocks| - i
      {
        assert Here(mem, blocks, end, i);
        if !mem[ptr].used && mem[ptr].next - (ptr + HEADER) >= size {
          return Some(ptr), Some(i);
        }
        ptr := mem[ptr].next;
        i := i + 1;
      }
      return None, None;
    }

    /** After `lfree` was handed out: the next free block, or the end. */
    method AdvanceLfree(ghost j: nat)
      requires Linked(mem, blocks, End(View())) && Tiled(blocks, End(View())) && j < |blocks| && blocks[j].at == lfree
      modifies this`lfree
      ensures lfree == NextFree(blocks, j, End(View()))
    {
      hide Tiled;
      ghost var end := End(View());
      ghost var k := j;
      assert Here(mem, blocks, end, j);
      while mem[lfree].used && lfree != memSize + HEADER
        invariant j <= k <= |blocks| && lfree == (if k < |blocks| then blocks[k].at else end) && lfree in mem
        invariant NextFree(blocks, k, end) == NextFree(blocks, j, end)
        decreases |blocks| - k
      {
        assert Here(mem, blocks, end, k);
        lfree := mem[lfree].next;
        k := k + 1;
        if k < |blocks| { assert Here(mem, blocks, end, k); }
      }
      if k < |blocks| { BelowEnd(blocks, end, k); assert Here(mem, blocks, end, k); }
    }

    /** rt_malloc once the block at `at` is found. */
    method Take(at: nat, size: nat, ghost j: nat)
      requires Valid() && j < |blocks| && blocks[j].at == at && Fits(blocks, j, size, End(View()))
      requires OnGrid(size) && size >= MIN_ALIGNED
      modifies this
      ensures Valid() && View() == TakeBlock(old(View()), j, size)
    {
      hide Tiled, Linked, SmallHeap.Inv, NextFree, OnGrid, SplitAt, SplitMem;
      ghost var was := View();
      TiledOf(was);
      MallocTake(was, j, size);
      TiledOf(TakeBlock(was, j, size));
      NeighbourFacts(mem, blocks, End(was), j);
      if mem[at].next - (at + HEADER) >= size + HEADER + MIN_ALIGNED {
        SplitLinked(mem, blocks, End(was), j, at + HEADER + size);
        mem := SplitMem(mem, at, at + HEADER + size, memSize + HEADER);
        blocks := SplitAt(blocks, j, at + HEADER + size, true);
        usedMem := usedMem + (size + HEADER);
      } else {
        MarkLinked(mem, blocks, End(was), j, true);
        mem := mem[at := mem[at].(used := true)];
        blocks := blocks[j := Block(at, true)];
        usedMem := usedMem + (mem[at].next - at);
      }
      assert blocks == TakeBlock(was, j, size).blocks;
      SplitIndex(was, j, size);
      if at == lfree { AdvanceLfree(j); }
      assert View() == TakeBlock(was, j, size);
    }

    /** rt_malloc; the result is the offset of the payload. */
    method Malloc(size: nat) returns (p: Option<nat>, ghost j: Option<nat>)
      requires Valid()
      modifies this
      ensures Valid() && (View(), j) == SmallHeap.Malloc(old(View()), size)
      ensures j.None? <==> p.None?
      ensures j.Some? ==> j.value < |blocks| && p.value == blocks[j.value].at + HEADER
    {
      hide SmallHeap.Inv, Linked, OnGrid, FindFit, IndexOf, NextFree, Tiled;
      AlignWanted(size);
      var wanted := Align(size);
      if size == 0 || wanted > memSize { return None, None; }
      if wanted < MIN_ALIGNED { wanted := MIN_ALIGNED; }
      ghost var was := View();
      TiledOf(was);
      FindFitOk(blocks, IndexOf(blocks, lfree), wanted, memSize - wanted, End(was));
      var r;
      r, j := Find(wanted);
      if r.None? { return None, None; }
      Take(r.value, wanted, j.value);
      p := Some(r.value + HEADER);
    }

    /** rt_realloc, the shrinking branch. */
    method Shrink(at: nat, size: nat, ghost j: nat)
      requires Valid() && j < |blocks| && blocks[j] == Block(at, true)
      requires Shrinks(View(), j, size) && OnGrid(size) && size >= ALIGN
      modifies this
      ensures Valid() && View() == SmallHeap.Shrink(old(View()), j, size)
    {
      hide Tiled, Linked, SmallHeap.Inv, OnGrid, SplitAt, SplitMem, SmallHeap.PlugHoles;
      ghost var was := View();
      TiledOf(was);
      ShrinkInv(was, j, size);
      CutFacts(was, j, size);
      NeighbourFacts(mem, blocks, End(was), j);
      SplitLinked(mem, blocks, End(was), j, at + HEADER + size);
      usedMem := usedMem - (mem[at].next - at - HEADER - size);
      mem := SplitMem(mem, at, at + HEADER + size, memSize + HEADER);
      blocks := SplitAt(blocks, j, at + HEADER + size, true);
      assert View() == Cut(was, j, size);
      PlugHoles(at + HEADER + size, j + 1);
      assert View() == SmallHeap.Shrink(was, j, size);
    }

    /** rt_realloc of the payload behind the header at `at`; the result is the header to use. */
    method Realloc(at: nat, newSize: nat, ghost j: nat) returns (r: Option<nat>)
      requires Valid() && j < |blocks| && blocks[j] == Block(at, true)
      modifies this
      ensures Valid() && (View(), r) == SmallHeap.Realloc(old(View()), j, newSize)
    {
      hide Tiled, Linked, SmallHeap.Inv, OnGrid, Align, IndexOf, SmallHeap.Malloc, SmallHeap.Free, SmallHeap.Shrink;
      AlignWanted(newSize);
      ghost var was := View();
      TiledOf(was);
      NeighbourFacts(mem, blocks, End(was), j);
      var size := Align(newSize);
      if size > memSize { return None; }
      if size == 0 {
        Free(at, j);
        return None;
      }
      GridLeast(size);
      var old' := mem[at].next - at - HEADER;
      if old' == size { return Some(at); }
      if size + HEADER + MIN_SIZE < old' {
        Shrink(at, size, j);
        return Some(at);
      }
      var p;
      ghost var k;
      p, k := Malloc(size);
      if p.None? {
        MallocEnd(was, size);
        return None;
      }
      MovedFrom(was, j, size);
      r := Some(p.value - HEADER);
      Free(at, IndexOf(blocks, at));
    }
  }

  lemma SplitIndex(h: Heap, j: nat, size: nat)
    requires j < |h.blocks|
    ensures var cs := TakeBlock(h, j, size).blocks; j < |cs| && cs[j].at == h.blocks[j].at
  {
  }

  lemma CutFacts(h: Heap, j: nat, size: nat)
    requires SmallHeap.Inv(h) && j < |h.blocks| && h.blocks[j].used
    requires Shrinks(h, j, size) && OnGrid(size) && size >= ALIGN
    ensures var at := h.blocks[j].at + HEADER + size;
      && h.blocks[j].at < at < NextAt(h.blocks, j, End(h))
      && Tiled(Cut(h, j, size).blocks, End(h)) && |Cut(h, j, size).blocks| == |h.blocks| + 1
      && Cut(h, j, size).blocks[j + 1] == Block(at, false)
  {
    hide Tiled, UsedSpan, Grid, LfreeOk, Coalesced;
    CutTiled(h, j, size);
  }

  lemma TiledOf(h: Heap)
    requires SmallHeap.Inv(h)
    ensures Tiled(h.blocks, End(h))
  {
  }

  lemma StartFacts(h: Heap)
    requires SmallHeap.Inv(h)
    ensures var i := IndexOf(h.blocks, h.lfree); h.lfree == if i < |h.blocks| then h.blocks[i].at else End(h)
  {
    IndexFound(h.blocks, h.lfree);
  }

  /** What the headers next to block `j` say. */
  lemma NeighbourFacts(m: Memory, bs: seq<Block>, end: nat, j: nat)
    requires Linked(m, bs, end) && Tiled(bs, end) && j < |bs|
    ensures bs[j].at in m
    ensures var n, p := m[bs[j].at].next, m[bs[j].at].prev;
      && n in m && p in m && bs[j].at != n && (n == end <==> j + 1 == |bs|) && n == NextAt(bs, j, end)
      && (j + 1 < |bs| ==> n == bs[j + 1].at && m[n].used == bs[j + 1].used)
      && (p == bs[j].at <==> j == 0)
      && (j > 0 ==> p == bs[j - 1].at && m[p].used == bs[j - 1].used)
  {
    assert Here(m, bs, end, j);
    assert bs[j].at + LEAST <= NextAt(bs, j, end);
    if j + 1 < |bs| {
      assert Here(m, bs, end, j + 1);
      BelowEnd(bs, end, j + 1);
    }
    if j > 0 {
      assert Here(m, bs, end, j - 1);
      assert bs[j - 1].at + LEAST <= NextAt(bs, j - 1, end);
    }
  }
}
