/** File reads and writes through the cache, as yaffs_guts.c runs them. Space checks and flash writes
    succeed. */
module FileDevice {
  import opened Basics
  import opened FileCache
  import opened FileBytes

  class Files {
    const page: nat
    const cache: array<Slot>
    var flash: map<Key, Bytes>
    var sizes: map<nat, nat>
    var lastUse: int

    function View(): Store
      reads this, cache
    {
      Store(page, cache[..], flash, sizes)
    }

    ghost predicate Valid()
      reads this, cache
    {
      FileCache.Inv(View())
    }

    /** An empty cache over a flash without file data. */
    constructor (pageSize: nat, slots: nat)
      requires pageSize > 0
      ensures Valid() && page == pageSize && fresh(cache) && sizes == map[] && Sized(View()) && ZeroTail(View())
    {
      page := pageSize;
      cache := new Slot[slots](_ => Slot(None, false, [], 0, 0));
      flash, sizes, lastUse := map[], map[], 0;
    }

    /** yaffs_find_chunk_cache */
    method FindChunk(k: Key) returns (r: Option<nat>)
      ensures r == Find(cache[..], k, 0)
    {
      var i := 0;
      while i < cache.Length
        invariant 0 <= i <= cache.Length && Find(cache[..], k, 0) == Find(cache[..], k, i)
      {
        if cache[i].key == Some(k) { return Some(i); }
        i := i + 1;
      }
      return None;
    }

    /** yaffs_use_cache, but for the dirty mark */
    method UseCache(i: nat)
      requires Valid() && i < cache.Length
      modifies this`lastUse, cache
      ensures Valid() && Restamped(old(View()), View()) && Same(old(View()), View())
    {
      if lastUse < 0 || lastUse > 100000000 {
        var j := 1;
        while j < cache.Length
          invariant 1 <= j && Restamped(old(View()), View())
        {
          cache[j] := cache[j].(lastUse := 0);
          j := j + 1;
        }
        lastUse := 0;
      }
      lastUse := lastUse + 1;
      cache[i] := cache[i].(lastUse := lastUse);
      RestampedSame(old(View()), View());
    }

    /** The dirty slot of file `o` with the lowest chunk id. */
    method LowestDirty(o: nat) returns (r: Option<nat>)
      ensures r.None? ==> forall i :: 0 <= i < cache.Length ==> !DirtyOf(cache[i], o)
      ensures r.Some? ==> r.value < cache.Length && DirtyOf(cache[r.value], o)
      ensures r.Some? ==> forall i :: 0 <= i < cache.Length && DirtyOf(cache[i], o) ==>
        cache[r.value].key.value.chunk <= cache[i].key.value.chunk
    {
      r := None;
      var i := 0;
      while i < cache.Length
        invariant 0 <= i <= cache.Length
        invariant r.None? ==> forall j :: 0 <= j < i ==> !DirtyOf(cache[j], o)
        invariant r.Some? ==> r.value < i && DirtyOf(cache[r.value], o)
        invariant r.Some? ==> forall j :: 0 <= j < i && DirtyOf(cache[j], o) ==>
          cache[r.value].key.value.chunk <= cache[j].key.value.chunk
      {
        if cache[i].key.Some? && cache[i].key.value.obj == o && cache[i].dirty {
          if r.None? || cache[i].key.value.chunk < cache[r.value].key.value.chunk { r := Some(i); }
        }
        i := i + 1;
      }
    }

    /** yaffs_flush_file_cache: every dirty slot of the file is written out and freed. */
    method FlushFile(o: nat)
      requires Valid()
      modifies this`flash, cache
      ensures Valid() && Same(old(View()), View())
      ensures forall i :: 0 <= i < cache.Length ==>
        if DirtyOf(old(cache[i]), o) then cache[i].key.None? else cache[i] == old(cache[i])
    {
      hide FileCache.Inv, Same, Chunk;
      SameRefl(View());
      var i: Option<nat> := LowestDirty(o);
      while i.Some?
        invariant Valid() && Same(old(View()), View())
        invariant i.None? ==> forall j :: 0 <= j < cache.Length ==> !DirtyOf(cache[j], o)
        invariant i.Some? ==> i.value < cache.Length && DirtyOf(cache[i.value], o)
        invariant forall j :: 0 <= j < cache.Length ==>
          cache[j] == old(cache[j]) || (DirtyOf(old(cache[j]), o) && cache[j].key.None?)
        decreases |DirtySlots(cache[..], o)|
      {
        ghost var before := View();
        WriteBackStep(before, i.value, o);
        var x := cache[i.value];
        flash := flash[x.key.value := x.data];
        cache[i.value] := x.(key := None, dirty := false);
        assert View() == WriteBack(before, i.value);
        SameTrans(old(View()), before, View());
        i := LowestDirty(o);
      }
    }

    /** yaffs_grab_chunk_worker */
    method FreeSlot() returns (r: Option<nat>)
      ensures r.Some? ==> r.value < cache.Length && cache[r.value].key.None?
      ensures r.None? ==> forall i :: 0 <= i < cache.Length ==> cache[i].key.Some?
    {
      var i := 0;
      while i < cache.Length
        invariant 0 <= i <= cache.Length && forall j :: 0 <= j < i ==> cache[j].key.Some?
      {
        if cache[i].key.None? { return Some(i); }
        i := i + 1;
      }
      return None;
    }

    /** The least recently used slot, when all are taken. */
    method Oldest() returns (r: nat)
      requires cache.Length > 0 && forall i :: 0 <= i < cache.Length ==> cache[i].key.Some?
      ensures r < cache.Length && forall i :: 0 <= i < cache.Length ==> cache[r].lastUse <= cache[i].lastUse
    {
      r := 0;
      var i := 1;
      while i < cache.Length
        invariant 1 <= i && r < cache.Length
        invariant forall j :: 0 <= j < i && j < cache.Length ==> cache[r].lastUse <= cache[j].lastUse
      {
        if cache[i].lastUse < cache[r].lastUse { r := i; }
        i := i + 1;
      }
    }

    /** yaffs_grab_chunk_cache: a slot that can be reused, after a flush if need be. */
    method Grab() returns (i: nat)
      requires Valid() && cache.Length > 0
      modifies this`flash, cache
      ensures Valid() && Same(old(View()), View()) && Spare(View(), i)
      ensures forall k :: Find(old(cache[..]), k, 0).None? ==> Find(cache[..], k, 0).None?
    {
      hide FileCache.Inv, Same, Chunk;
      SameRefl(View());
      var free := FreeSlot();
      if free.Some? { return free.value; }
      i := Oldest();
      if cache[i].dirty {
        FlushFile(cache[i].key.value.obj);
        free := FreeSlot();
        assert free.Some? by { assert cache[i].key.None?; }
        i := free.value;
      }
    }

    /** The slot that holds chunk `k`, loading it if it is not cached. */
    method Cached(k: Key) returns (i: nat)
      requires Valid() && cache.Length > 0
      modifies this`flash, cache
      ensures Valid() && Same(old(View()), View()) && Holds(View(), i, k)
    {
      hide FileCache.Inv, Same, Chunk;
      SameRefl(View());
      var hit := FindChunk(k);
      if hit.Some? { return hit.value; }
      i := Grab();
      ghost var before := View();
      LoadStep(before, i, k);
      cache[i] := Slot(Some(k), false, if k in flash then flash[k] else Zeros(page), 0, cache[i].lastUse);
      assert View() == Load(before, i, k);
      SameTrans(old(View()), before, View());
    }

    /** One pass of the loop in yaffs_file_rd: bytes of one chunk. */
    method ReadPart(k: Key, start: nat, n: nat) returns (bytes: Bytes)
      requires Valid() && start + n <= page
      modifies this`flash, this`lastUse, cache
      ensures Valid() && Same(old(View()), View())
      ensures |bytes| == n && |Chunk(old(View()), k)| == page && bytes == Chunk(old(View()), k)[start..start + n]
    {
      hide FileCache.Inv, Same;
      InvSized(View());
      ChunkSize(View(), k);
      SameRefl(View());
      var hit := FindChunk(k);
      if (hit.Some? || n != page) && cache.Length > 0 {
        var i := Cached(k);
        ghost var before := View();
        HeldChunk(before, i, k);
        SameChunkAs(old(View()), before, k);
        UseCache(i);
        SameTrans(old(View()), before, View());
        bytes := cache[i].data[start..start + n];
      } else {
        var data := if k in flash then flash[k] else Zeros(page);
        bytes := data[start..start + n];
      }
    }

    /** yaffs_file_rd */
    method ReadFile(o: nat, offset: nat, n: nat) returns (bytes: Bytes)
      requires Valid() && page > 0
      modifies this`flash, this`lastUse, cache
      ensures Valid() && Same(old(View()), View()) && |bytes| == n
      ensures FileCache.Sized(old(View())) && forall j :: 0 <= j < n ==> bytes[j] == ByteAt(old(View()), o, offset + j)
    {
      hide FileCache.Inv, Same, Chunk, ByteAt, Sized;
      InvSized(View());
      SameRefl(View());
      bytes := [];
      while |bytes| < n
        invariant Valid() && Same(old(View()), View()) && |bytes| <= n
        invariant forall j :: 0 <= j < |bytes| ==> bytes[j] == ByteAt(old(View()), o, offset + j)
        decreases n - |bytes|
      {
        var off, left := offset + |bytes|, n - |bytes|;
        var chunk, start := ChunkOf(off, page) + 1, StartOf(off, page);
        var nCopy := if start + left < page then left else page - start;
        ghost var before := View();
        var part := ReadPart(Key(o, chunk), start, nCopy);
        SameTrans(old(View()), before, View());
        forall j | 0 <= j < nCopy ensures part[j] == ByteAt(old(View()), o, off + j) {
          PartByte(old(View()), before, o, off, j, part, nCopy);
        }
        bytes := bytes + part;
      }
    }

    /** How much of the chunk at `offset` must be written back to keep what follows the new bytes. */
    method WriteBackCount(o: nat, offset: nat, n: nat) returns (count: nat)
      requires page > 0 && StartOf(offset, page) + n <= page
      ensures count <= page && StartOf(offset, page) + n <= count
      ensures forall off :: offset <= off < SizeOf(View(), o) && ChunkOf(off, page) == ChunkOf(offset, page) ==>
        StartOf(off, page) < count
    {
      var start := StartOf(offset, page);
      StartBelow(offset, page);
      var base := offset - start;
      var size := if o in sizes then sizes[o] else 0;
      var there := if base > size then 0 else size - base;
      if there > page { there := page; }
      count := if there > start + n then there else start + n;
      forall off | offset <= off < size && ChunkOf(off, page) == ChunkOf(offset, page)
        ensures StartOf(off, page) < count
      {
        SameChunk(off, offset, page);
      }
    }

    /** A chunk goes to flash; a cached copy is invalidated. */
    method WriteChunk(k: Key, bytes: Bytes)
      modifies this`flash, cache
      ensures View() == WriteWhole(old(View()), k, bytes)
    {
      flash := flash[k := bytes];
      var i := FindChunk(k);
      if i.Some? { cache[i.value] := cache[i.value].(key := None); }
    }

    /** Bytes into a cached chunk, which becomes dirty. */
    method PokeSlot(o: nat, i: nat, offset: nat, bytes: Bytes, nBack: nat)
      requires Valid() && page > 0 && StartOf(offset, page) + |bytes| <= page
      requires Holds(View(), i, Key(o, ChunkOf(offset, page) + 1))
      modifies this`lastUse, cache
      ensures Valid() && Sized(old(View())) && Sized(View()) && Replaced(old(View()), View(), o, offset, bytes)
      ensures Holds(View(), i, Key(o, ChunkOf(offset, page) + 1))
    {
      hide FileCache.Inv, Same, Chunk, Replaced, Sized;
      var start := StartOf(offset, page);
      InvSized(View());
      UseCache(i);
      ghost var before := View();
      InvSized(before);
      HeldChunk(before, i, Key(o, ChunkOf(offset, page) + 1));
      PokeStep(before, i, o, offset, bytes, nBack, cache[i].lastUse);
      var data := cache[i].data;
      cache[i] := cache[i].(data := data[..start] + bytes + data[start + |bytes|..], nBytes := nBack, dirty := true);
      assert View() == Poke(before, i, start, bytes, nBack, before.cache[i].lastUse);
      InvSized(View());
      ReplacedSame(old(View()), before, View(), o, offset, bytes);
    }

    /** Writing a slot out and keeping it. */
    method Through(i: nat)
      requires Valid() && i < cache.Length && cache[i].key.Some?
      modifies this`flash, cache
      ensures Valid() && Same(old(View()), View())
    {
      hide FileCache.Inv, Same, Chunk;
      ghost var before := View();
      ThroughStep(before, i);
      flash := flash[cache[i].key.value := cache[i].data];
      cache[i] := cache[i].(dirty := false);
      assert View() == WriteThrough(before, i);
    }

    /** One pass of the loop in yaffs_do_file_wr, for part of a chunk and with a cache. */
    method WriteCached(o: nat, offset: nat, bytes: Bytes, through: bool)
      requires Valid() && page > 0 && StartOf(offset, page) + |bytes| <= page && cache.Length > 0
      modifies this`flash, this`lastUse, cache
      ensures Valid() && Sized(old(View())) && Sized(View()) && Replaced(old(View()), View(), o, offset, bytes)
    {
      hide FileCache.Inv, Same, Chunk, Replaced, Sized;
      InvSized(View());
      var nBack := WriteBackCount(o, offset, |bytes|);
      var i := Cached(Key(o, ChunkOf(offset, page) + 1));
      ghost var loaded := View();
      InvSized(loaded);
      PokeSlot(o, i, offset, bytes, nBack);
      ghost var poked := View();
      ReplacedSame(old(View()), loaded, poked, o, offset, bytes);
      if through {
        Through(i);
        InvSized(View());
        ReplacedSame(old(View()), poked, View(), o, offset, bytes);
      }
    }

    /** One pass of the loop in yaffs_do_file_wr. */
    method WritePart(o: nat, offset: nat, bytes: Bytes, through: bool)
      requires Valid() && page > 0 && StartOf(offset, page) + |bytes| <= page
      modifies this`flash, this`lastUse, cache
      ensures Valid() && Sized(old(View())) && Sized(View()) && Replaced(old(View()), View(), o, offset, bytes)
    {
      hide FileCache.Inv, Same, Chunk, Replaced, Sized, WriteWhole;
      InvSized(View());
      var k, start := Key(o, ChunkOf(offset, page) + 1), StartOf(offset, page);
      if |bytes| == page {
        WholeStep(View(), o, offset, bytes);
        WriteChunk(k, bytes);
        InvSized(View());
      } else if cache.Length > 0 {
        WriteCached(o, offset, bytes, through);
      } else {
        UncachedStep(View(), o, offset, bytes);
        var data := if k in flash then flash[k] else Zeros(page);
        WriteChunk(k, Splice(data, start, bytes));
        InvSized(View());
      }
    }

    /** yaffs_do_file_wr */
    method WriteFile(o: nat, offset: nat, buf: Bytes, through: bool)
      requires Valid() && page > 0
      modifies this, cache
      ensures Valid() && Sized(old(View())) && Sized(View()) && Replaced(old(View()), View(), o, offset, buf)
      ensures sizes == old(sizes)[o :=
        if offset + |buf| > SizeOf(old(View()), o) then offset + |buf| else SizeOf(old(View()), o)]
    {
      hide FileCache.Inv, Same, Chunk, Replaced, Sized;
      InvSized(View());
      ReplacedNothing(View(), o, offset);
      var done := 0;
      assert buf[..0] == [];
      while done < |buf|
        invariant 0 <= done <= |buf| && Valid() && Sized(View()) && sizes == old(sizes)
        invariant Replaced(old(View()), View(), o, offset, buf[..done])
      {
        var off, left := offset + done, |buf| - done;
        var start := StartOf(off, page);
        var nCopy := if start + left < page then left else page - start;
        ghost var before := View();
        WritePart(o, off, buf[done..done + nCopy], through);
        ReplacedTwice(old(View()), before, View(), o, offset, buf[..done], buf[done..done + nCopy]);
        assert buf[..done] + buf[done..done + nCopy] == buf[..done + nCopy];
        done := done + nCopy;
      }
      assert buf[..done] == buf;
      var size := if o in sizes then sizes[o] else 0;
      ghost var written := View();
      sizes := sizes[o := if offset + |buf| > size then offset + |buf| else size];
      Resized(written, View());
      ReplacedSizes(old(View()), written, View(), o, offset, buf);
    }

    /** yaffs2_handle_hole: a small hole is filled with zeros, a large one is left to the object header. */
    method HandleHole(o: nat, newSize: nat, small: bool)
      requires Valid() && Sized(View()) && ZeroTail(View()) && page > 0
      modifies this, cache
      ensures Valid() && Sized(View()) && Unchanged(old(View()), View()) && ZeroTail(View())
      ensures forall p :: p != o ==> SizeOf(View(), p) == SizeOf(old(View()), p)
      ensures SizeOf(View(), o) == if newSize > SizeOf(old(View()), o) && small then newSize else SizeOf(old(View()), o)
    {
      hide FileCache.Inv, Same, Chunk, Replaced, Sized, ZeroTail, Unchanged;
      var pos := if o in sizes then sizes[o] else 0;
      UnchangedRefl(View());
      if newSize > pos && small {
        while pos < newSize
          invariant pos <= newSize && pos == SizeOf(View(), o) && Valid() && Sized(View()) && ZeroTail(View())
          invariant Unchanged(old(View()), View())
          invariant forall p :: p != o ==> SizeOf(View(), p) == SizeOf(old(View()), p)
          decreases newSize - pos
        {
          var n := if newSize - pos > page then page else newSize - pos;
          ghost var before := View();
          WriteFile(o, pos, Zeros(n), false);
          ZeroesOverZeroes(before, View(), o, pos, n);
          UnchangedTrans(old(View()), before, View());
          ReplacedTail(before, View(), o, pos, Zeros(n));
          pos := pos + n;
        }
      }
    }

    /** yaffs_wr_file: afterwards the file reads as the old one with the new bytes in place, whatever
        lies between the old end and the offset being zeros. */
    method WrFile(o: nat, offset: nat, buf: Bytes, through: bool, small: bool)
      requires Valid() && Sized(View()) && ZeroTail(View()) && page > 0
      modifies this, cache
      ensures Valid() && Sized(View()) && ZeroTail(View()) && Replaced(old(View()), View(), o, offset, buf)
      ensures forall p :: p != o ==> SizeOf(View(), p) == SizeOf(old(View()), p)
      ensures SizeOf(View(), o) ==
        if offset + |buf| > SizeOf(old(View()), o) then offset + |buf| else SizeOf(old(View()), o)
    {
      hide FileCache.Inv, Same, Chunk, Replaced, Sized, ZeroTail, Unchanged;
      HandleHole(o, offset, small);
      ghost var before := View();
      WriteFile(o, offset, buf, through);
      ReplacedTail(before, View(), o, offset, buf);
      UnchangedReplaced(old(View()), before, View(), o, offset, buf);
    }

    /** yaffs_invalidate_whole_cache */
    method Invalidate(o: nat)
      modifies cache
      ensures View() == Forget(old(View()), o)
    {
      var i := 0;
      while i < cache.Length
        invariant 0 <= i <= cache.Length
        invariant forall j :: 0 <= j < i ==> cache[j] == Forget(old(View()), o).cache[j]
        invariant forall j :: i <= j < cache.Length ==> cache[j] == old(cache[j])
      {
        if cache[i].key.Some? && cache[i].key.value.obj == o { cache[i] := cache[i].(key := None); }
        i := i + 1;
      }
    }

    /** yaffs_prune_chunks */
    method PruneChunks(o: nat, size: nat)
      requires page > 0 && size < SizeOf(View(), o)
      modifies this`flash
      ensures View() ==
        Pruned(old(View()), o, 1 + ChunkOf(size + page - 1, page), 1 + ChunkOf(SizeOf(View(), o) - 1, page))
    {
      var last, start := 1 + ChunkOf(sizes[o] - 1, page), 1 + ChunkOf(size + page - 1, page);
      var i := last;
      while i >= start
        invariant i <= last && flash == Pruned(old(View()), o, if i + 1 >= start then i + 1 else start, last).flash
        decreases i
      {
        flash := map k | k in flash && k != Key(o, i) :: flash[k];
        i := i - 1;
      }
    }

    /** yaffs_resize_file_down, on a file with no cached chunks */
    method ResizeDown(o: nat, size: nat)
      requires Valid() && page > 0 && size < SizeOf(View(), o) && Uncached(View(), o)
      modifies this, cache
      ensures View() == Cut(old(View()), o, size)
    {
      hide Pruned, Chunk, FileCache.Inv, Uncached, WriteWhole, Splice;
      ghost var lo, hi := 1 + ChunkOf(size + page - 1, page), 1 + ChunkOf(SizeOf(View(), o) - 1, page);
      PrunedChunks(View(), o, lo, hi, Key(o, ChunkOf(size, page) + 1));
      PruneChunks(o, size);
      var k, part := Key(o, ChunkOf(size, page) + 1), StartOf(size, page);
      InvSizes(View(), k);
      if part != 0 {
        var data := if k in flash then flash[k] else Zeros(page);
        FlashSize(View(), k);
        WriteChunk(k, Splice(data, part, Zeros(page - part)));
      }
      sizes := sizes[o := size];
    }

    /** yaffs_resize_file: bytes below both ends stay, a regrown tail reads as zeros. */
    method Resize(o: nat, size: nat, small: bool)
      requires Valid() && Sized(View()) && ZeroTail(View()) && page > 0
      modifies this, cache
      ensures Valid() && Sized(View()) && ZeroTail(View()) && SizeOf(View(), o) == size
      ensures forall p :: p != o ==> SizeOf(View(), p) == SizeOf(old(View()), p)
      ensures Truncated(old(View()), View(), o, size)
    {
      hide FileCache.Inv, Same, Chunk, Sized, ZeroTail, Unchanged, Truncated, Forget, Uncached, Cut;
      FlushFile(o);
      ghost var flushed := View();
      ForgetStep(flushed, o);
      Invalidate(o);
      SameTrans(old(View()), flushed, View());
      SameUnchanged(old(View()), View());
      ghost var empty := View();
      var size0 := if o in sizes then sizes[o] else 0;
      if size > size0 {
        HandleHole(o, size, small);
        ghost var filled := View();
        UnchangedTrans(old(View()), empty, filled);
        sizes := sizes[o := size];
        Enlarged(old(View()), filled, View(), o, size);
      } else if size < size0 {
        ResizeDown(o, size);
        CutStep(old(View()), empty, o, size);
      } else {
        Enlarged(old(View()), empty, View(), o, size);
      }
    }
  }

  lemma SameRefl(s: Store)
    ensures Same(s, s)
  {
  }

  lemma InvSized(s: Store)
    requires FileCache.Inv(s)
    ensures Sized(s)
  {
  }

  lemma HeldChunk(s: Store, i: nat, k: Key)
    requires FileCache.Inv(s) && Holds(s, i, k)
    ensures Chunk(s, k) == s.cache[i].data && |s.cache[i].data| == s.page
  {
    ChunkOfSlot(s, i, k);
  }

  lemma SameChunkAs(s: Store, t: Store, k: Key)
    requires Same(s, t)
    ensures Chunk(t, k) == Chunk(s, k)
  {
  }

  lemma StartBelow(off: nat, page: nat)
    requires page > 0
    ensures StartOf(off, page) <= off
    decreases off
  {
    if off >= page { StartBelow(off - page, page); }
  }

  lemma PartByte(s: Store, t: Store, o: nat, off: nat, j: nat, part: Bytes, n: nat)
    requires Sized(s) && Same(s, t) && StartOf(off, s.page) + n <= s.page && j < n == |part|
    requires var c := Chunk(t, Key(o, ChunkOf(off, s.page) + 1));
      |c| == s.page && part == c[StartOf(off, s.page)..StartOf(off, s.page) + n]
    ensures part[j] == ByteAt(s, o, off + j)
  {
    hide Chunk, Sized;
    Within(off, s.page, j);
  }

  /** Without a cache the chunk is read, changed and written back. */
  lemma UncachedStep(s: Store, o: nat, offset: nat, bytes: Bytes)
    requires FileCache.Inv(s) && |s.cache| == 0 && StartOf(offset, s.page) + |bytes| <= s.page
    ensures var k := Key(o, ChunkOf(offset, s.page) + 1);
      |OnFlash(s, k)| == s.page &&
      var t := WriteWhole(s, k, Splice(OnFlash(s, k), StartOf(offset, s.page), bytes));
      FileCache.Inv(t) && Replaced(s, t, o, offset, bytes)
  {
    hide Replaced;
    var k := Key(o, ChunkOf(offset, s.page) + 1);
    var data := Splice(OnFlash(s, k), StartOf(offset, s.page), bytes);
    var t := WriteWhole(s, k, data);
    WriteWholeChanges(s, k, data, k);
    forall x
      ensures Chunk(t, x) == if x == k then Splice(Chunk(s, k), StartOf(offset, s.page), bytes) else Chunk(s, x)
    {
      WriteWholeChanges(s, k, data, x);
    }
    SpliceReplaces(s, t, o, offset, bytes);
  }

  lemma ReplacedNothing(s: Store, o: nat, offset: nat)
    requires Sized(s)
    ensures Replaced(s, s, o, offset, [])
  {
  }

  /** A new file size changes no chunk. */
  lemma Resized(s: Store, t: Store)
    requires FileCache.Inv(s) && t == s.(sizes := t.sizes)
    ensures FileCache.Inv(t) && Sized(t) && forall k :: Chunk(t, k) == Chunk(s, k)
  {
  }

  lemma ReplacedSizes(s: Store, t: Store, u: Store, o: nat, offset: nat, bytes: Bytes)
    requires Sized(s) && Sized(t) && Sized(u) && Replaced(s, t, o, offset, bytes) && u == t.(sizes := u.sizes)
    requires forall k :: Chunk(u, k) == Chunk(t, k)
    ensures Replaced(s, u, o, offset, bytes)
  {
    forall p, off: nat ensures ByteAt(u, p, off) == ByteAt(t, p, off) { }
  }

  // ----- sizes and tails -----

  /** Every byte of every file reads as before. */
  ghost predicate Unchanged(s: Store, t: Store)
    requires Sized(s) && Sized(t)
  {
    t.page == s.page && forall p, off: nat :: ByteAt(t, p, off) == ByteAt(s, p, off)
  }

  /** File `o` is cut off at `size`, or extended with zeros; other files stay. */
  ghost predicate Truncated(s: Store, t: Store, o: nat, size: nat)
    requires Sized(s) && Sized(t)
  {
    && t.page == s.page
    && forall p, off: nat :: ByteAt(t, p, off) == if p == o && off >= size then 0 else ByteAt(s, p, off)
  }

  lemma UnchangedRefl(s: Store)
    requires Sized(s)
    ensures Unchanged(s, s)
  {
  }

  lemma UnchangedTrans(s: Store, t: Store, u: Store)
    requires Sized(s) && Sized(t) && Sized(u) && Unchanged(s, t) && Unchanged(t, u)
    ensures Unchanged(s, u)
  {
  }

  lemma SameUnchanged(s: Store, t: Store)
    requires Sized(s) && Sized(t) && Same(s, t)
    ensures Unchanged(s, t) && (ZeroTail(s) ==> ZeroTail(t)) && t.sizes == s.sizes
  {
    forall p, off: nat ensures ByteAt(t, p, off) == ByteAt(s, p, off) { SameBytes(s, t, p, off); }
  }

  lemma ZeroesOverZeroes(s: Store, t: Store, o: nat, pos: nat, n: nat)
    requires Sized(s) && Sized(t) && ZeroTail(s) && pos == SizeOf(s, o) && Replaced(s, t, o, pos, Zeros(n))
    ensures Unchanged(s, t)
  {
    hide ByteAt, Sized;
  }

  lemma UnchangedReplaced(s: Store, t: Store, u: Store, o: nat, offset: nat, bytes: Bytes)
    requires Sized(s) && Sized(t) && Sized(u) && Unchanged(s, t) && Replaced(t, u, o, offset, bytes)
    ensures Replaced(s, u, o, offset, bytes)
  {
    hide ByteAt, Sized;
  }

  lemma FlashSize(s: Store, k: Key)
    requires FileCache.Inv(s)
    ensures |OnFlash(s, k)| == s.page
  {
  }

  lemma ForgetStep(s: Store, o: nat)
    requires FileCache.Inv(s) && forall i :: 0 <= i < |s.cache| ==> !DirtyOf(s.cache[i], o)
    ensures FileCache.Inv(Forget(s, o)) && Sized(Forget(s, o)) && Same(s, Forget(s, o)) && Uncached(Forget(s, o), o)
  {
    ForgetSame(s, o);
  }

  lemma Enlarged(s: Store, t: Store, u: Store, o: nat, size: nat)
    requires Sized(s) && FileCache.Inv(t) && Sized(t) && Unchanged(s, t) && ZeroTail(s) && ZeroTail(t)
    requires u == t.(sizes := u.sizes) && SizeOf(u, o) == size >= SizeOf(s, o) && size >= SizeOf(t, o)
    requires forall p :: p != o ==> SizeOf(u, p) == SizeOf(t, p)
    ensures FileCache.Inv(u) && Sized(u) && ZeroTail(u) && Truncated(s, u, o, size)
  {
    Resized(t, u);
    forall p, off: nat ensures ByteAt(u, p, off) == ByteAt(t, p, off) { }
  }

  lemma CutStep(s: Store, t: Store, o: nat, size: nat)
    requires Sized(s) && FileCache.Inv(t) && Sized(t) && Uncached(t, o)
    requires Unchanged(s, t) && ZeroTail(t) && size < SizeOf(t, o)
    ensures var u := Cut(t, o, size);
      && FileCache.Inv(u) && Sized(u) && ZeroTail(u) && Truncated(s, u, o, size) && SizeOf(u, o) == size
      && forall p :: p != o ==> SizeOf(u, p) == SizeOf(t, p)
  {
    hide Cut, ByteAt, Uncached, FileCache.Inv;
    var u := Cut(t, o, size);
    CutPage(t, o, size);
    CutInv(t, o, size);
    forall p, off: nat ensures ByteAt(u, p, off) == if p == o && off >= size then 0 else ByteAt(t, p, off) {
      CutByte(t, o, size, p, off);
    }
  }

  lemma CutInv(s: Store, o: nat, size: nat)
    requires FileCache.Inv(s) && Sized(s) && Uncached(s, o) && size < SizeOf(s, o)
    ensures FileCache.Inv(Cut(s, o, size)) && Sized(Cut(s, o, size))
  {
    hide Cut, Uncached;
    CutChunks(s, o, size, Key(o, 0));
  }
}
