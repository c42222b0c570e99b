/** Files as byte arrays: what the chunks, cached or not, amount to. */
module FileBytes {
  import opened Basics
  import opened FileCache

  // ----- yaffs_addr_to_chunk -----

  function ChunkOf(off: nat, page: nat): nat
    requires page > 0
  {
    if off < page then 0 else 1 + ChunkOf(off - page, page)
  }

  function StartOf(off: nat, page: nat): (r: nat)
    requires page > 0
    ensures r < page
  {
    if off < page then off else StartOf(off - page, page)
  }

  lemma {:induction false} AddressExact(off: nat, page: nat)
    requires page > 0
    ensures ChunkOf(off, page) * page + StartOf(off, page) == off
  {
    if off >= page {
      AddressExact(off - page, page);
      var c := ChunkOf(off - page, page);
      assert (1 + c) * page == page + c * page;
    }
  }

  /** Offsets within one chunk. */
  lemma {:induction false} Within(off: nat, page: nat, k: nat)
    requires page > 0 && StartOf(off, page) + k < page
    ensures ChunkOf(off + k, page) == ChunkOf(off, page) && StartOf(off + k, page) == StartOf(off, page) + k
  {
    if off >= page { Within(off - page, page, k); }
  }

  lemma {:induction false} SameChunk(a: nat, b: nat, page: nat)
    requires page > 0 && ChunkOf(a, page) == ChunkOf(b, page)
    ensures a - StartOf(a, page) == b - StartOf(b, page)
  {
    if a >= page && b >= page { SameChunk(a - page, b - page, page); }
  }

  lemma {:induction false} ChunkMonotone(a: nat, b: nat, page: nat)
    requires page > 0 && a <= b
    ensures ChunkOf(a, page) <= ChunkOf(b, page)
  {
    if a >= page { ChunkMonotone(a - page, b - page, page); }
  }

  lemma {:induction false} RoundUp(off: nat, page: nat)
    requires page > 0
    ensures ChunkOf(off + page - 1, page) == ChunkOf(off, page) + (if StartOf(off, page) == 0 then 0 else 1)
  {
    if off >= page { RoundUp(off - page, page); }
  }

  // ----- bytes -----

  function ByteAt(s: Store, o: nat, off: nat): bv8
    requires Sized(s)
  {
    ChunkSize(s, Key(o, ChunkOf(off, s.page) + 1));
    Chunk(s, Key(o, ChunkOf(off, s.page) + 1))[StartOf(off, s.page)]
  }

  function SizeOf(s: Store, o: nat): nat { if o in s.sizes then s.sizes[o] else 0 }

  /** Beyond the end of a file its chunks hold zeros. */
  ghost predicate ZeroTail(s: Store)
    requires Sized(s)
  {
    forall o, off: nat :: off >= SizeOf(s, o) ==> ByteAt(s, o, off) == 0
  }

  /** Nothing a reader could notice has changed. */
  ghost predicate Same(s: Store, t: Store) {
    t.page == s.page && t.sizes == s.sizes && forall k :: Chunk(t, k) == Chunk(s, k)
  }

  lemma SameBytes(s: Store, t: Store, o: nat, off: nat)
    requires Same(s, t) && Sized(s) && Sized(t)
    ensures ByteAt(t, o, off) == ByteAt(s, o, off)
  {
  }

  /** Exactly the bytes at `offset` in file `o` are replaced. */
  ghost predicate Replaced(s: Store, t: Store, o: nat, offset: nat, bytes: Bytes)
    requires Sized(s) && Sized(t)
  {
    && t.page == s.page
    && forall p, off: nat :: ByteAt(t, p, off) ==
         if p == o && offset <= off < offset + |bytes| then bytes[off - offset] else ByteAt(s, p, off)
  }

  /** One chunk spliced is one span of bytes replaced. */
  lemma SpliceReplaces(s: Store, t: Store, o: nat, offset: nat, bytes: Bytes)
    requires Sized(s) && Sized(t) && t.page == s.page && StartOf(offset, s.page) + |bytes| <= s.page
    requires var k := Key(o, ChunkOf(offset, s.page) + 1);
      |Chunk(s, k)| == s.page &&
      (forall x :: Chunk(t, x) == if x == k then Splice(Chunk(s, k), StartOf(offset, s.page), bytes) else Chunk(s, x))
    ensures Replaced(s, t, o, offset, bytes)
  {
    var page, start := s.page, StartOf(offset, s.page);
    var k := Key(o, ChunkOf(offset, page) + 1);
    forall p, off: nat ensures ByteAt(t, p, off) ==
      if p == o && offset <= off < offset + |bytes| then bytes[off - offset] else ByteAt(s, p, off)
    {
      SpliceByte(s, t, o, offset, bytes, p, off);
    }
  }

  lemma SpliceByte(s: Store, t: Store, o: nat, offset: nat, bytes: Bytes, p: nat, off: nat)
    requires Sized(s) && Sized(t) && t.page == s.page && StartOf(offset, s.page) + |bytes| <= s.page
    requires var k := Key(o, ChunkOf(offset, s.page) + 1);
      |Chunk(s, k)| == s.page &&
      (forall x :: Chunk(t, x) == if x == k then Splice(Chunk(s, k), StartOf(offset, s.page), bytes) else Chunk(s, x))
    ensures ByteAt(t, p, off) ==
      if p == o && offset <= off < offset + |bytes| then bytes[off - offset] else ByteAt(s, p, off)
  {
    hide Chunk, Sized;
    var page := s.page;
    if p == o && ChunkOf(off, page) == ChunkOf(offset, page) {
      SameChunk(off, offset, page);
    } else if p == o && offset <= off < offset + |bytes| {
      Within(offset, page, off - offset);
    }
  }

  lemma ReplacedTwice(s: Store, t: Store, u: Store, o: nat, offset: nat, a: Bytes, b: Bytes)
    requires Sized(s) && Sized(t) && Sized(u)
    requires Replaced(s, t, o, offset, a) && Replaced(t, u, o, offset + |a|, b)
    ensures Replaced(s, u, o, offset, a + b)
  {
    hide ByteAt, Sized;
    forall p, off: nat ensures ByteAt(u, p, off) ==
      if p == o && offset <= off < offset + |a + b| then (a + b)[off - offset] else ByteAt(s, p, off)
    {
    }
  }

  lemma ReplacedTail(s: Store, t: Store, o: nat, offset: nat, bytes: Bytes)
    requires Sized(s) && Sized(t) && ZeroTail(s) && Replaced(s, t, o, offset, bytes)
    requires forall p :: p != o ==> SizeOf(t, p) == SizeOf(s, p)
    requires SizeOf(t, o) >= SizeOf(s, o) && (bytes != [] ==> SizeOf(t, o) >= offset + |bytes|)
    ensures ZeroTail(t)
  {
    hide ByteAt, Sized;
  }

  // ----- changes nobody can notice -----

  /** Only the usage stamps differ. */
  ghost predicate Restamped(s: Store, t: Store) {
    && t.page == s.page && t.flash == s.flash && t.sizes == s.sizes && |t.cache| == |s.cache|
    && forall j :: 0 <= j < |s.cache| ==> t.cache[j] == s.cache[j].(lastUse := t.cache[j].lastUse)
  }

  lemma RestampedSame(s: Store, t: Store)
    requires FileCache.Inv(s) && Restamped(s, t)
    ensures FileCache.Inv(t) && Same(s, t)
  {
    forall k ensures Chunk(t, k) == Chunk(s, k) {
      var j := Find(s.cache, k, 0);
      if j.Some? { ChunkOfSlot(s, j.value, k); assert Holds(t, j.value, k); ChunkOfSlot(t, j.value, k); }
      else { assert Find(t.cache, k, 0).None?; }
    }
  }

  lemma SameTrans(s: Store, t: Store, u: Store)
    requires Same(s, t) && Same(t, u)
    ensures Same(s, u)
  {
  }

  predicate DirtyOf(x: Slot, o: nat) { x.key.Some? && x.key.value.obj == o && x.dirty }

  function DirtySlots(cache: seq<Slot>, o: nat): set<nat> { set i: nat | i < |cache| && DirtyOf(cache[i], o) }

  /** Writing back slot `i`: nothing is lost, and one dirty slot fewer is left. */
  lemma WriteBackStep(s: Store, i: nat, o: nat)
    requires FileCache.Inv(s) && i < |s.cache| && DirtyOf(s.cache[i], o)
    ensures var t := WriteBack(s, i);
      FileCache.Inv(t) && Same(s, t) && |DirtySlots(t.cache, o)| < |DirtySlots(s.cache, o)|
  {
    var t := WriteBack(s, i);
    forall k ensures FileCache.Inv(t) && Chunk(t, k) == Chunk(s, k) { WriteBackSame(s, i, k); }
    WriteBackSame(s, i, Key(0, 0));
    assert i in DirtySlots(s.cache, o);
    assert DirtySlots(t.cache, o) == DirtySlots(s.cache, o) - {i};
  }

  /** Dropping the slots of a file that has none dirty. */
  function Forget(s: Store, o: nat): Store {
    s.(cache := seq(|s.cache|, i requires 0 <= i < |s.cache| =>
      if s.cache[i].key.Some? && s.cache[i].key.value.obj == o then s.cache[i].(key := None) else s.cache[i]))
  }

  lemma ForgetSame(s: Store, o: nat)
    requires FileCache.Inv(s) && forall i :: 0 <= i < |s.cache| ==> !DirtyOf(s.cache[i], o)
    ensures FileCache.Inv(Forget(s, o)) && Same(s, Forget(s, o))
    ensures forall c :: Chunk(Forget(s, o), Key(o, c)) == OnFlash(s, Key(o, c))
    ensures forall c :: Find(Forget(s, o).cache, Key(o, c), 0).None?
  {
    var t := Forget(s, o);
    forall k ensures Chunk(t, k) == Chunk(s, k) {
      var j := Find(s.cache, k, 0);
      if j.Some? {
        ChunkOfSlot(s, j.value, k);
        if k.obj == o { assert !DirtyOf(s.cache[j.value], o); assert Find(t.cache, k, 0).None?; }
        else { assert Holds(t, j.value, k); ChunkOfSlot(t, j.value, k); }
      } else { assert Find(t.cache, k, 0).None?; }
    }
    forall c ensures Find(t.cache, Key(o, c), 0).None? { }
  }

  lemma LoadStep(s: Store, i: nat, k: Key)
    requires FileCache.Inv(s) && Spare(s, i) && Find(s.cache, k, 0).None?
    ensures FileCache.Inv(Load(s, i, k)) && Same(s, Load(s, i, k)) && Holds(Load(s, i, k), i, k)
  {
    forall x ensures FileCache.Inv(Load(s, i, k)) && Chunk(Load(s, i, k), x) == Chunk(s, x) { LoadSame(s, i, k, x); }
    LoadSame(s, i, k, k);
  }

  lemma PokeStep(s: Store, i: nat, o: nat, offset: nat, bytes: Bytes, nBytes: nat, use: int)
    requires FileCache.Inv(s) && s.page > 0 && StartOf(offset, s.page) + |bytes| <= s.page
    requires Holds(s, i, Key(o, ChunkOf(offset, s.page) + 1))
    ensures var t := Poke(s, i, StartOf(offset, s.page), bytes, nBytes, use);
      FileCache.Inv(t) && Replaced(s, t, o, offset, bytes) && Holds(t, i, Key(o, ChunkOf(offset, s.page) + 1))
  {
    hide Replaced, Chunk, Splice;
    var k, start := Key(o, ChunkOf(offset, s.page) + 1), StartOf(offset, s.page);
    var t := Poke(s, i, start, bytes, nBytes, use);
    PokeChanges(s, i, start, bytes, nBytes, use, k, k);
    forall x ensures Chunk(t, x) == if x == k then Splice(Chunk(s, k), start, bytes) else Chunk(s, x) {
      PokeChanges(s, i, start, bytes, nBytes, use, k, x);
    }
    SpliceReplaces(s, t, o, offset, bytes);
  }

  lemma WholeStep(s: Store, o: nat, offset: nat, bytes: Bytes)
    requires FileCache.Inv(s) && s.page > 0 && StartOf(offset, s.page) == 0 && |bytes| == s.page
    ensures var t := WriteWhole(s, Key(o, ChunkOf(offset, s.page) + 1), bytes);
      FileCache.Inv(t) && Replaced(s, t, o, offset, bytes)
  {
    hide Replaced, Chunk;
    var k := Key(o, ChunkOf(offset, s.page) + 1);
    var t := WriteWhole(s, k, bytes);
    ChunkSize(s, k);
    WriteWholeChanges(s, k, bytes, k);
    forall x ensures Chunk(t, x) == if x == k then Splice(Chunk(s, k), 0, bytes) else Chunk(s, x) {
      WriteWholeChanges(s, k, bytes, x);
      assert Splice(Chunk(s, k), 0, bytes) == bytes;
    }
    SpliceReplaces(s, t, o, offset, bytes);
  }

  lemma ThroughStep(s: Store, i: nat)
    requires FileCache.Inv(s) && i < |s.cache| && s.cache[i].key.Some?
    ensures FileCache.Inv(WriteThrough(s, i)) && Same(s, WriteThrough(s, i))
  {
    forall k
      ensures FileCache.Inv(WriteThrough(s, i)) && Chunk(WriteThrough(s, i), k) == Chunk(s, k)
    {
      WriteThroughSame(s, i, k);
    }
    WriteThroughSame(s, i, Key(0, 0));
  }

  /** A change nobody notices before or after a replacement. */
  lemma ReplacedSame(s: Store, t: Store, u: Store, o: nat, offset: nat, bytes: Bytes)
    requires Sized(s) && Sized(t) && Sized(u)
    ensures Same(s, t) && Replaced(t, u, o, offset, bytes) ==> Replaced(s, u, o, offset, bytes)
    ensures Replaced(s, t, o, offset, bytes) && Same(t, u) ==> Replaced(s, u, o, offset, bytes)
  {
    if Same(s, t) && Replaced(t, u, o, offset, bytes) {
      forall p, off: nat ensures ByteAt(t, p, off) == ByteAt(s, p, off) { SameBytes(s, t, p, off); }
    }
    if Replaced(s, t, o, offset, bytes) && Same(t, u) {
      forall p, off: nat ensures ByteAt(u, p, off) == ByteAt(t, p, off) { SameBytes(t, u, p, off); }
    }
  }

  // ----- truncation -----

  /** The flash chunks of file `o` with ids from `lo` to `hi` are deleted. */
  function Pruned(s: Store, o: nat, lo: int, hi: int): Store {
    s.(flash := map k | k in s.flash && !(k.obj == o && lo <= k.chunk <= hi) :: s.flash[k])
  }

  ghost predicate Uncached(s: Store, o: nat) { forall c :: Find(s.cache, Key(o, c), 0).None? }

  lemma PrunedChunks(s: Store, o: nat, lo: int, hi: int, k: Key)
    requires FileCache.Inv(s) && Uncached(s, o)
    ensures var t := Pruned(s, o, lo, hi);
      && FileCache.Inv(t) && Uncached(t, o)
      && Chunk(t, k) == if k.obj == o && lo <= k.chunk <= hi then Zeros(s.page) else Chunk(s, k)
  {
    var t := Pruned(s, o, lo, hi);
    forall i | 0 <= i < |t.cache| && t.cache[i].key.Some? && !t.cache[i].dirty
      ensures t.cache[i].data == OnFlash(t, t.cache[i].key.value)
    {
      var x := t.cache[i].key.value;
      assert Find(s.cache, Key(o, x.chunk), 0).None?;
    }
    if k.obj == o { assert Find(s.cache, Key(o, k.chunk), 0).None?; }
  }

  /** yaffs_resize_file_down: the chunks past the new end go, and the last one is padded with zeros. */
  function Cut(s: Store, o: nat, size: nat): Store
    requires s.page > 0
  {
    var full, part := ChunkOf(size, s.page), StartOf(size, s.page);
    var old' := SizeOf(s, o);
    var last := if old' == 0 then 0 else 1 + ChunkOf(old' - 1, s.page);
    var t := Pruned(s, o, 1 + ChunkOf(size + s.page - 1, s.page), last);
    var k := Key(o, full + 1);
    var u := if part != 0 && |OnFlash(t, k)| == s.page
             then WriteWhole(t, k, Splice(OnFlash(t, k), part, Zeros(s.page - part))) else t;
    u.(sizes := u.sizes[o := size])
  }

  lemma CutChunks(s: Store, o: nat, size: nat, x: Key)
    requires FileCache.Inv(s) && Uncached(s, o) && s.page > 0 && size < SizeOf(s, o)
    ensures var full, part := ChunkOf(size, s.page), StartOf(size, s.page);
      var lo, hi := 1 + ChunkOf(size + s.page - 1, s.page), 1 + ChunkOf(SizeOf(s, o) - 1, s.page);
      && FileCache.Inv(Cut(s, o, size)) && |Chunk(s, x)| == s.page
      && Chunk(Cut(s, o, size), x) ==
           if x == Key(o, full + 1) && part != 0 then Splice(Chunk(s, x), part, Zeros(s.page - part))
           else if x.obj == o && lo <= x.chunk <= hi then Zeros(s.page) else Chunk(s, x)
  {
    hide FileCache.Inv, Uncached, Pruned;
    var page := s.page;
    var full, part := ChunkOf(size, page), StartOf(size, page);
    var lo, hi := 1 + ChunkOf(size + page - 1, page), 1 + ChunkOf(SizeOf(s, o) - 1, page);
    RoundUp(size, page);
    var t, k := Pruned(s, o, lo, hi), Key(o, full + 1);
    PrunedPage(s, o, lo, hi);
    PrunedChunks(s, o, lo, hi, x);
    PrunedChunks(s, o, lo, hi, k);
    UncachedChunk(t, o, full + 1);
    InvSizes(s, x);
    InvSizes(t, k);
    if part != 0 {
      var data := Splice(OnFlash(t, k), part, Zeros(page - part));
      WriteWholeChanges(t, k, data, x);
      SizesOnly(WriteWhole(t, k, data), Cut(s, o, size).sizes, x);
    } else {
      SizesOnly(t, Cut(s, o, size).sizes, x);
    }
  }

  lemma PrunedPage(s: Store, o: nat, lo: int, hi: int)
    ensures Pruned(s, o, lo, hi).page == s.page && Pruned(s, o, lo, hi).sizes == s.sizes
  {
  }

  lemma UncachedChunk(s: Store, o: nat, c: nat)
    requires Uncached(s, o)
    ensures Chunk(s, Key(o, c)) == OnFlash(s, Key(o, c))
  {
  }

  lemma InvSizes(s: Store, k: Key)
    requires FileCache.Inv(s)
    ensures |Chunk(s, k)| == s.page && Sized(s)
  {
  }

  lemma SizesOnly(s: Store, sizes: map<nat, nat>, k: Key)
    requires FileCache.Inv(s)
    ensures FileCache.Inv(s.(sizes := sizes)) && Chunk(s.(sizes := sizes), k) == Chunk(s, k)
  {
  }

  /** Truncation keeps the bytes below the new end and zeroes the rest. */
  lemma CutByte(s: Store, o: nat, size: nat, p: nat, off: nat)
    requires FileCache.Inv(s) && Uncached(s, o) && ZeroTail(s) && size < SizeOf(s, o)
    ensures Sized(Cut(s, o, size))
    ensures ByteAt(Cut(s, o, size), p, off) == if p == o && off >= size then 0 else ByteAt(s, p, off)
  {
    hide Cut, Chunk, Uncached;
    var page := s.page;
    var x := Key(p, ChunkOf(off, page) + 1);
    CutChunks(s, o, size, x);
    CutPage(s, o, size);
    RoundUp(size, page);
    if p == o && off >= size {
      ChunkMonotone(size, off, page);
      assert off >= SizeOf(s, o) ==> ByteAt(s, o, off) == 0;
      if ChunkOf(off, page) == ChunkOf(size, page) { SameChunk(off, size, page); }
      if off < SizeOf(s, o) { ChunkMonotone(off, SizeOf(s, o) - 1, page); }
    } else if p == o {
      ChunkMonotone(off, size, page);
      if ChunkOf(off, page) == ChunkOf(size, page) { SameChunk(off, size, page); }
    }
  }

  lemma CutPage(s: Store, o: nat, size: nat)
    requires s.page > 0
    ensures Cut(s, o, size).page == s.page && Cut(s, o, size).sizes == s.sizes[o := size]
  {
  }
}
