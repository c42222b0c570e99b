/** The memheap as memheap.c keeps it: every block in a circular list of neighbours, the unused
    ones also in a circular free list, both relinked in place. */
module MemHeapObject {
  import opened Basics
  import opened Tiling
  import opened MemHeap
  import RL = RingList
  import WL = WaitList

  // ----- rings for the two lists -----

  function Offsets(bs: seq<Block>, end: nat): seq<nat> { seq(|bs|, i requires 0 <= i < |bs| => bs[i].at) + [end] }

  /** Blocks and tailer are linked in address order, and the marks tell which are used. */
  ghost predicate Linked(links: RL.Memory, used: map<nat, bool>, bs: seq<Block>, end: nat) {
    && RL.Ring(links, Offsets(bs, end))
    && (forall i :: 0 <= i < |bs| ==> bs[i].at in used && used[bs[i].at] == bs[i].used)
    && end in used && used[end]
  }

  /** What the links and marks around block `j` say. */
  lemma Around(links: RL.Memory, used: map<nat, bool>, bs: seq<Block>, end: nat, j: nat)
    requires Linked(links, used, bs, end) && j < |bs|
    ensures bs[j].at in links && bs[j].at in used && used[bs[j].at] == bs[j].used
    ensures links[bs[j].at].next == NextAt(bs, j, end) && links[bs[j].at].next in used
    ensures used[NextAt(bs, j, end)] == (j + 1 < |bs| ==> bs[j + 1].used)
    ensures links[bs[j].at].prev == (if j > 0 then bs[j - 1].at else end) && links[bs[j].at].prev in used
    ensures used[links[bs[j].at].prev] == (j > 0 ==> bs[j - 1].used)
  {
    var r := Offsets(bs, end);
    assert RL.Joined(links, r, j);
    assert RL.Joined(links, r, if j > 0 then j - 1 else |bs|);
  }

  lemma SplitLinked(links: RL.Memory, used: map<nat, bool>, bs: seq<Block>, end: nat, j: nat, at: nat)
    requires Linked(links, used, bs, end) && Tiled(bs, end) && j < |bs| && bs[j].at < at < NextAt(bs, j, end)
    ensures bs[j].at in links
    ensures
      Linked(RL.LinkAfter(links, bs[j].at, at), used[at := false][bs[j].at := true], SplitAt(bs, j, at, true), end)
  {
    hide Tiled, RL.Ring, RL.LinkAfter;
    var r := Offsets(bs, end);
    forall i | 0 <= i < |bs| ensures bs[i].at != at && bs[i].at != end && (bs[i].at == bs[j].at <==> i == j) {
      Outside(bs, end, j, i, at);
      BelowEnd(bs, end, i);
      DistinctAt(bs, end, i, j);
    }
    NextBelow(bs, end, j);
    assert at !in r;
    RL.InsertAfterRing(links, r, j, at);
    assert r[..j + 1] + [at] + r[j + 1..] == Offsets(SplitAt(bs, j, at, true), end);
  }

  lemma MarkLinked(links: RL.Memory, used: map<nat, bool>, bs: seq<Block>, end: nat, j: nat, flag: bool)
    requires Linked(links, used, bs, end) && Tiled(bs, end) && j < |bs|
    ensures Linked(links, used[bs[j].at := flag], bs[j := Block(bs[j].at, flag)], end)
  {
    hide Tiled, RL.Ring;
    var cs := bs[j := Block(bs[j].at, flag)];
    assert Offsets(cs, end) == Offsets(bs, end);
    BelowEnd(bs, end, j);
    forall i | 0 <= i < |bs| ensures bs[i].at == bs[j].at <==> i == j { DistinctAt(bs, end, i, j); }
  }

  lemma JoinLinked(links: RL.Memory, used: map<nat, bool>, bs: seq<Block>, end: nat, k: nat)
    requires Linked(links, used, bs, end) && k + 1 < |bs|
    ensures bs[k + 1].at in links
    ensures Linked(RL.Unlink(links, bs[k + 1].at), used, Tiling.Remove(bs, k + 1), end)
  {
    hide RL.Ring, RL.Unlink;
    var r := Offsets(bs, end);
    RL.UnlinkRing(links, r, k + 1);
    assert r[..k + 1] + r[k + 2..] == Offsets(Tiling.Remove(bs, k + 1), end);
  }

  lemma {:induction false} RemoveAt(s: seq<nat>, k: nat)
    requires WL.Distinct(s) && k < |s|
    ensures WL.Remove(s, s[k]) == s[..k] + s[k + 1..]
  {
    var t := s[1..];
    if k == 0 {
      NotThere(t, s[0]);
    } else {
      assert t[k - 1] == s[k];
      RemoveAt(t, k - 1);
      assert [s[0]] + (t[..k - 1] + t[k..]) == s[..k] + s[k + 1..];
    }
  }

  lemma {:induction false} NotThere(s: seq<nat>, x: nat)
    requires x !in s
    ensures WL.Remove(s, x) == s
  {
    if s != [] { NotThere(s[1..], x); }
  }

  lemma BehindHead(head: nat, free: seq<nat>, k: nat)
    requires k < |free|
    ensures var r := [head] + free;
      r[k + 1] == free[k] && r[..k + 1] + r[k + 2..] == [head] + (free[..k] + free[k + 1..])
  {
  }

  lemma TakeOffRing(links: RL.Memory, head: nat, free: seq<nat>, a: nat)
    requires RL.Ring(links, [head] + free) && a in free && WL.Distinct(free)
    ensures a in links && RL.Ring(RL.Unlink(links, a), [head] + WL.Remove(free, a))
  {
    hide RL.Ring, RL.Unlink, WL.Distinct, WL.Remove;
    var k :| 0 <= k < |free| && free[k] == a;
    var r := [head] + free;
    RL.UnlinkRing(links, r, k + 1);
    RemoveAt(free, k);
    BehindHead(head, free, k);
  }

  lemma HeadNotListed(links: RL.Memory, head: nat, free: seq<nat>)
    requires RL.Ring(links, [head] + free)
    ensures head !in free && forall i :: 0 <= i < |free| ==> free[i] != head
  {
    var r := [head] + free;
    forall i | 0 <= i < |free| ensures free[i] != head { assert r[0] != r[i + 1]; }
  }

  lemma PutOnRing(links: RL.Memory, head: nat, free: seq<nat>, a: nat)
    requires RL.Ring(links, [head] + free) && a !in free && a != head
    ensures head in links && RL.Ring(RL.LinkAfter(links, head, a), [head] + ([a] + free))
  {
    hide RL.Ring, RL.LinkAfter;
    var r := [head] + free;
    RL.InsertAfterRing(links, r, 0, a);
    assert r[..1] + [a] + r[1..] == [head] + ([a] + free);
  }

  /** MEMITEM_SIZE read from the links. */
  lemma ItemSize(links: RL.Memory, used: map<nat, bool>, h: Heap, a: nat)
    requires MemHeap.Inv(h) && Linked(links, used, h.blocks, End(h)) && a in h.free
    ensures a in links && links[a].next - a - HEADER == SizeAt(h, a)
    ensures IndexOf(h.blocks, a) < |h.blocks| && h.blocks[IndexOf(h.blocks, a)] == Block(a, false) && a < End(h)
  {
    hide Linked, Tiled, Coalesced, Sum;
    assert Unused(h.blocks, a);
    var i :| 0 <= i < |h.blocks| && h.blocks[i].at == a && !h.blocks[i].used;
    AtIndex(h.blocks, End(h), i);
    Around(links, used, h.blocks, End(h), i);
    BelowEnd(h.blocks, End(h), i);
  }

  /** Every free offset lies below the end, every other block is not on the list. */
  lemma ListFacts(h: Heap, j: nat)
    requires MemHeap.Inv(h) && j < |h.blocks|
    ensures Tiled(h.blocks, End(h)) && WL.Distinct(h.free) && (h.blocks[j].at in h.free <==> !h.blocks[j].used)
    ensures h.blocks[j].at < End(h) && h.available == FreeBytes(h.blocks, End(h))
  {
    hide Tiled, Coalesced, Sum;
    UsedNotUnused(h.blocks, End(h), j);
    BelowEnd(h.blocks, End(h), j);
  }

  lemma InsideNotListed(h: Heap, j: nat, at: nat)
    requires MemHeap.Inv(h) && j < |h.blocks| && h.blocks[j].at < at < NextAt(h.blocks, j, End(h))
    ensures at !in h.free && at < End(h)
  {
    hide Tiled, Coalesced, Sum;
    InsideNotUnused(h.blocks, End(h), j, at);
    NextBelow(h.blocks, End(h), j);
  }

  class Pool {
    const poolSize: nat
    var links: RL.Memory       // next and prev of each block
    var used: map<nat, bool>   // the used bit of each magic word
    var listed: RL.Memory      // next_free and prev_free
    var available: int
    var maxUsed: int
    ghost var blocks: seq<Block>
    ghost var free: seq<nat>

    /** The free list header is outside the pool. */
    ghost function View(): Heap
      reads this
    {
      Heap(poolSize, blocks, free, available, maxUsed)
    }

    ghost predicate Valid()
      reads this
    {
      && poolSize >= 2 * HEADER && MemHeap.Inv(View())
      && Linked(links, used, blocks, End(View())) && RL.Ring(listed, [poolSize] + free)
    }

    /** rt_memheap_init */
    constructor (size: nat)
      requires size >= 2 * HEADER
      ensures Valid() && View() == Init(size)
    {
      var tail := size - HEADER;
      poolSize, available, maxUsed := size, size - 2 * HEADER, 2 * HEADER;
      links := map[0 := RL.Node(tail, tail), tail := RL.Node(0, 0)];
      used := map[0 := false, tail := true];
      listed := map[size := RL.Node(0, 0), 0 := RL.Node(size, size)];
      blocks, free := [Block(0, false)], [0];
      new;
      InitInv(size);
    }

    method Note()
      modifies this`maxUsed
      ensures View() == Used(old(View()))
    {
      if poolSize - available > maxUsed { maxUsed := poolSize - available; }
    }

    /** The search of rt_memheap_alloc. */
    method Find(size: nat) returns (a: Option<nat>)
      requires Valid() && size > 0
      ensures a == FindFree(View(), free, size)
    {
      ghost var h := View();
      ghost var k := 0;
      hide MemHeap.Inv, Linked;
      HeadNotListed(listed, poolSize, free);
      assert RL.Joined(listed, [poolSize] + free, 0);
      assert free[0..] == free;
      var p, freeSize := listed[poolSize].next, 0;
      while p != poolSize && freeSize < size
        invariant k <= |free| && p == (if k < |free| then free[k] else poolSize)
        invariant FindFree(h, free, size) == if freeSize >= size then Some(p) else FindFree(h, free[k..], size)
        invariant freeSize >= size ==> k < |free|
        decreases |free| - k, if freeSize < size then 1 else 0
      {
        assert RL.Joined(listed, [poolSize] + free, k + 1);
        ItemSize(links, used, h, p) by { assert p in free; }
        freeSize := links[p].next - p - HEADER;
        if freeSize < size {
          assert free[k..][1..] == free[k + 1..];
          p := listed[p].next;
          k := k + 1;
        }
      }
      if freeSize >= size { return Some(p); }
      assert k == |free| && free[k..] == [];
      return None;
    }

    /** rt_memheap_alloc once the block at `at` is found. */
    method Take(at: nat, size: nat, ghost j: nat)
      requires Valid() && Candidate(View(), j, size) && blocks[j].at == at
      modifies this
      ensures Valid() && View() == TakeBlock(old(View()), j, size)
    {
      hide MemHeap.Inv, Linked, RL.Ring, RL.Unlink, WL.Remove, WL.Distinct, SplitAt;
      ghost var h := View();
      TakeInv(h, j, size);
      ListFacts(h, j);
      Around(links, used, blocks, End(h), j);
      TakeOffRing(listed, poolSize, free, at);
      WL.RemoveElements(free, at);
      var freeSize := links[at].next - at - HEADER;
      listed := RL.Unlink(listed, at);
      free := WL.Remove(free, at);
      if freeSize >= size + HEADER + MINIALLOC {
        InsideNotListed(h, j, at + size + HEADER);
        available := available - size - HEADER;
        SplitOff(at, at + size + HEADER, j);
      } else {
        MarkLinked(links, used, blocks, End(h), j, true);
        available := available - freeSize;
        used := used[at := true];
        blocks := blocks[j := Block(at, true)];
      }
      Note();
    }

    /** A new header at `rest` ends block `j`, which is used, and goes on the free list. */
    method SplitOff(at: nat, rest: nat, ghost j: nat)
      requires Linked(links, used, blocks, End(View())) && Tiled(blocks, End(View()))
      requires j < |blocks| && blocks[j].at == at < rest < NextAt(blocks, j, End(View()))
      requires RL.Ring(listed, [poolSize] + free) && rest !in free && rest != poolSize
      modifies this`links, this`used, this`listed, this`blocks, this`free
      ensures blocks == SplitAt(old(blocks), j, rest, true) && free == [rest] + old(free)
      ensures Linked(links, used, blocks, End(View())) && RL.Ring(listed, [poolSize] + free)
    {
      hide Linked, RL.Ring, RL.LinkAfter, SplitAt, Tiled;
      SplitLinked(links, used, blocks, End(View()), j, rest);
      PutOnRing(listed, poolSize, free, rest);
      links := RL.LinkAfter(links, at, rest);
      listed := RL.LinkAfter(listed, poolSize, rest);
      used := used[rest := false][at := true];
      blocks, free := SplitAt(blocks, j, rest, true), [rest] + free;
    }

    method Alloc(size: nat) returns (a: Option<nat>)
      requires Valid()
      modifies this
      ensures Valid() && (View(), a) == MemHeap.Alloc(old(View()), size)
    {
      hide MemHeap.Inv, Linked, RL.Ring, FindFree, IndexOf, TakeBlock, Align;
      WantedEnough(size);
      var wanted := Align(size);
      if wanted < MINIALLOC { wanted := MINIALLOC; }
      if wanted >= available { return None; }
      a := Find(wanted);
      if a.Some? {
        FoundCandidate(View(), wanted);
        Take(a.value, wanted, IndexOf(blocks, a.value));
      }
    }

    /** A free block absorbs its free successor. */
    method AbsorbNext(at: nat, ghost j: nat)
      requires Linked(links, used, blocks, End(View())) && RL.Ring(listed, [poolSize] + free) && WL.Distinct(free)
      requires j < |blocks| && blocks[j] == Block(at, false)
      requires j + 1 < |blocks| && !blocks[j + 1].used ==> blocks[j + 1].at in free
      modifies this
      ensures View() == MergeNext(old(View()), j)
      ensures Linked(links, used, blocks, End(View())) && RL.Ring(listed, [poolSize] + free)
    {
      hide Linked, RL.Ring, RL.Unlink, WL.Remove, WL.Distinct;
      Around(links, used, blocks, End(View()), j);
      var n := links[at].next;
      if !used[n] {
        JoinLinked(links, used, blocks, End(View()), j);
        TakeOffRing(listed, poolSize, free, n);
        available := available + HEADER;
        links := RL.Unlink(links, n);
        listed := RL.Unlink(listed, n);
        blocks, free := Tiling.Remove(blocks, j + 1), WL.Remove(free, n);
      }
    }

    method Free(at: nat, ghost j: nat)
      requires Valid() && j < |blocks| && blocks[j] == Block(at, true)
      modifies this
      ensures Valid() && View() == MemHeap.Free(old(View()), j)
    {
      hide MemHeap.Inv, Linked, RL.Ring, RL.Unlink, RL.LinkAfter, WL.Distinct, MergeNext, Tiling.Remove;
      ghost var h := View();
      FreeInv(h, j);
      ListFacts(h, j);
      NextListed(h, j);
      Around(links, used, blocks, End(h), j);
      available := available + (links[at].next - at - HEADER);
      if !used[links[at].prev] { FreeIntoLeft(at, j); } else { FreeAlone(at, j); }
    }

    /** The block melts into its free left neighbour, which may then absorb the right one. */
    method FreeIntoLeft(at: nat, ghost j: nat)
      requires Linked(links, used, blocks, End(View())) && RL.Ring(listed, [poolSize] + free) && WL.Distinct(free)
      requires 0 < j < |blocks| && blocks[j].at == at && !blocks[j - 1].used
      requires j + 1 < |blocks| && !blocks[j + 1].used ==> blocks[j + 1].at in free
      modifies this
      ensures View() ==
        MergeNext(old(View()).(blocks := Tiling.Remove(old(blocks), j), available := old(available) + HEADER), j - 1)
      ensures Linked(links, used, blocks, End(View())) && RL.Ring(listed, [poolSize] + free)
    {
      hide Linked, RL.Ring, RL.Unlink, WL.Distinct, MergeNext, Tiling.Remove;
      Around(links, used, blocks, End(View()), j);
      JoinLinked(links, used, blocks, End(View()), j - 1);
      RemoveShape(blocks, j);
      var prev := links[at].prev;
      available := available + HEADER;
      links := RL.Unlink(links, at);
      blocks := Tiling.Remove(blocks, j);
      AbsorbNext(prev, j - 1);
    }

    /** No left neighbour to merge with: the block itself goes on the free list. */
    method FreeAlone(at: nat, ghost j: nat)
      requires Linked(links, used, blocks, End(View())) && Tiled(blocks, End(View()))
      requires RL.Ring(listed, [poolSize] + free) && WL.Distinct(free)
      requires j < |blocks| && blocks[j].at == at && at !in free && at != poolSize
      requires j + 1 < |blocks| && !blocks[j + 1].used ==> blocks[j + 1].at in free
      modifies this
      ensures var g := MergeNext(old(View()).(blocks := old(blocks)[j := Block(at, false)]), j);
        View() == g.(free := [at] + g.free)
      ensures Linked(links, used, blocks, End(View())) && RL.Ring(listed, [poolSize] + free)
    {
      hide Linked, RL.Ring, RL.LinkAfter, WL.Distinct, MergeNext, Tiled;
      MarkLinked(links, used, blocks, End(View()), j, false);
      used := used[at := false];
      blocks := blocks[j := Block(at, false)];
      MergeFree(View(), j, at);
      AbsorbNext(at, j);
      PutOnRing(listed, poolSize, free, at);
      listed := RL.LinkAfter(listed, poolSize, at);
      free := [at] + free;
    }

    /** rt_memheap_realloc, growing into the free successor. */
    method Grow(at: nat, size: nat, ghost j: nat)
      requires Valid() && j < |blocks| && blocks[j] == Block(at, true)
      requires GrowsInPlace(View(), j, size) && size >= Payload(View(), j)
      modifies this
      ensures Valid() && View() == MemHeap.Grow(old(View()), j, size)
    {
      hide MemHeap.Inv, Linked, RL.Ring, RL.Unlink, WL.Distinct, WL.Remove, Tiling.Remove, SplitAt, Tiled;
      ghost var h := View();
      GrowInv(h, j, size);
      ListFacts(h, j);
      NextListed(h, j);
      GrowFacts(h, j, size);
      Around(links, used, blocks, End(h), j);
      var n := links[at].next;
      available := available - (size - (n - at - HEADER));
      JoinLinked(links, used, blocks, End(h), j);
      TakeOffRing(listed, poolSize, free, n);
      listed := RL.Unlink(listed, n);
      links := RL.Unlink(links, n);
      blocks, free := Tiling.Remove(blocks, j + 1), WL.Remove(free, n);
      SplitOff(at, at + HEADER + size, j);
      Note();
    }

    /** rt_memheap_realloc, giving up the tail of a block. */
    method Shrink(at: nat, size: nat, ghost j: nat)
      requires Valid() && j < |blocks| && blocks[j] == Block(at, true) && size + HEADER + MINIALLOC < Payload(View(), j)
      modifies this
      ensures Valid() && View() == MemHeap.Shrink(old(View()), j, size)
    {
      hide MemHeap.Inv, Linked, RL.Ring, RL.LinkAfter, WL.Distinct, MergeNext, SplitAt, Tiled, MemHeap.Shrink;
      ghost var h := View();
      var rest := at + HEADER + size;
      ShrinkInv(h, j, size);
      ListFacts(h, j);
      NextListed(h, j);
      ShrinkAsMerge(h, j, size);
      InsideNotListed(h, j, rest);
      SplitShape(blocks, j, rest);
      WL.DistinctCons(rest, free);
      Around(links, used, blocks, End(h), j);
      var oldSize := links[at].next - at - HEADER;
      SplitOff(at, rest, j);
      available := available + (oldSize - size - HEADER);
      AbsorbNext(rest, j + 1);
    }

    /** rt_memheap_realloc of the payload behind the header at `at`; the result is the header to use. */
    method Realloc(at: nat, newSize: nat, ghost j: nat) returns (r: Option<nat>)
      requires Valid() && j < |blocks| && blocks[j] == Block(at, true)
      modifies this
      ensures Valid() && (View(), r) == MemHeap.Realloc(old(View()), j, newSize)
    {
      hide MemHeap.Inv, Linked, RL.Ring, IndexOf, Align, MemHeap.Alloc, MemHeap.Free, MemHeap.Grow, MemHeap.Shrink;
      ghost var h := View();
      Around(links, used, blocks, End(h), j);
      if newSize == 0 {
        Free(at, j);
        return None;
      }
      var size := Align(newSize);
      if size < MINIALLOC { size := MINIALLOC; }
      var next := links[at].next;
      var oldSize := next - at - HEADER;
      if size > oldSize {
        if !used[next] {
          Around(links, used, blocks, End(h), j + 1);
          if (links[next].next - next - HEADER) + oldSize > size + MINIALLOC {
            Grow(at, size, j);
            return Some(at);
          }
        }
        r := Move(at, size, j);
        return;
      }
      if size + HEADER + MINIALLOC >= oldSize { return Some(at); }
      Shrink(at, size, j);
      return Some(at);
    }

    /** A new block, then the old one freed. */
    method Move(at: nat, size: nat, ghost j: nat) returns (r: Option<nat>)
      requires Valid() && j < |blocks| && blocks[j] == Block(at, true)
      modifies this
      ensures Valid()
      ensures var (g, a) := MemHeap.Alloc(old(View()), size);
        if a.None? then View() == g && r == None
        else IndexOf(g.blocks, at) < |g.blocks| && View() == MemHeap.Free(g, IndexOf(g.blocks, at)) && r == a
    {
      hide MemHeap.Inv, Linked, RL.Ring, IndexOf, MemHeap.Alloc, MemHeap.Free;
      ghost var h := View();
      r := Alloc(size);
      if r.Some? {
        MovedFrom(h, j, size);
        Free(at, IndexOf(blocks, at));
      }
    }
  }

  lemma SplitShape(bs: seq<Block>, j: nat, at: nat)
    requires j < |bs|
    ensures var cs := SplitAt(bs, j, at, true);
      |cs| == |bs| + 1 && cs[j + 1] == Block(at, false) && (j + 2 < |cs| ==> cs[j + 2] == bs[j + 1])
  {
  }

  lemma GrowFacts(h: Heap, j: nat, size: nat)
    requires MemHeap.Inv(h) && j < |h.blocks| && h.blocks[j].used && GrowsInPlace(h, j, size) && size >= Payload(h, j)
    ensures var cs, rest := Tiling.Remove(h.blocks, j + 1), h.blocks[j].at + HEADER + size;
      && Tiled(cs, End(h)) && j < |cs| && cs[j] == h.blocks[j] && cs[j].at < rest < NextAt(cs, j, End(h))
      && rest !in WL.Remove(h.free, h.blocks[j + 1].at) && rest < End(h)
  {
    hide Sum, WL.Remove, SplitAt;
    var cs, rest := Tiling.Remove(h.blocks, j + 1), h.blocks[j].at + HEADER + size;
    GrowShape(h, j, size);
    JoinTiled(h.blocks, j, End(h));
    RemoveList(h.blocks, End(h), j + 1, h.free);
    PayloadPositive(h, j);
    InsideNotUnused(cs, End(h), j, rest);
    NextBelow(cs, End(h), j);
  }

  lemma NextListed(h: Heap, j: nat)
    requires MemHeap.Inv(h) && j < |h.blocks|
    ensures j + 1 < |h.blocks| && !h.blocks[j + 1].used ==> h.blocks[j + 1].at in h.free
  {
    if j + 1 < |h.blocks| { ListFacts(h, j + 1); }
  }

  lemma RemoveShape(bs: seq<Block>, j: nat)
    requires 0 < j < |bs|
    ensures var cs := Tiling.Remove(bs, j);
      |cs| == |bs| - 1 && cs[j - 1] == bs[j - 1] && (j < |cs| ==> cs[j] == bs[j + 1])
  {
  }

  lemma MergeFree(g: Heap, j: nat, at: nat)
    requires j < |g.blocks| && at !in g.free
    ensures at !in MergeNext(g, j).free
  {
    if j + 1 < |g.blocks| { WL.RemoveElements(g.free, g.blocks[j + 1].at); }
  }
}
