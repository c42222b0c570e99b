/** The short-op cache of YAFFS: a few slots, each holding one chunk of one file, in front of the
    chunks on flash. */
module FileCache {
  import opened Basics

  datatype Key = Key(obj: nat, chunk: nat)
  datatype Slot = Slot(key: Option<Key>, dirty: bool, data: Bytes, nBytes: nat, lastUse: int)

  /** Cache slots, the chunks on flash, file sizes; `page` is data_bytes_per_chunk. */
  datatype Store = Store(page: nat, cache: seq<Slot>, flash: map<Key, Bytes>, sizes: map<nat, nat>)

  function Zeros(n: nat): Bytes { seq(n, _ => 0) }

  /** yaffs_rd_data_obj: a hole reads as zeros. */
  function OnFlash(s: Store, k: Key): Bytes { if k in s.flash then s.flash[k] else Zeros(s.page) }

  predicate Holds(s: Store, i: nat, k: Key) { i < |s.cache| && s.cache[i].key == Some(k) }

  /** yaffs_find_chunk_cache, from slot `i` on */
  function Find(cache: seq<Slot>, k: Key, i: nat): (r: Option<nat>)
    ensures r.Some? ==> i <= r.value < |cache| && cache[r.value].key == Some(k)
    ensures r.None? ==> forall j :: i <= j < |cache| ==> cache[j].key != Some(k)
    decreases |cache| - i
  {
    if i >= |cache| then None else if cache[i].key == Some(k) then Some(i) else Find(cache, k, i + 1)
  }

  /** What a reader of chunk `k` gets. */
  function Chunk(s: Store, k: Key): Bytes {
    var i := Find(s.cache, k, 0);
    if i.Some? then s.cache[i.value].data else OnFlash(s, k)
  }

  // ----- the invariant -----

  /** No chunk is held twice. */
  ghost predicate Unique(cache: seq<Slot>) {
    forall i, j :: 0 <= i < j < |cache| && cache[i].key.Some? ==> cache[i].key != cache[j].key
  }

  /** A slot that is not dirty holds what is on flash. */
  ghost predicate Clean(s: Store) {
    forall i :: 0 <= i < |s.cache| && s.cache[i].key.Some? && !s.cache[i].dirty ==>
      s.cache[i].data == OnFlash(s, s.cache[i].key.value)
  }

  ghost predicate Sized(s: Store) {
    && s.page > 0
    && (forall i :: 0 <= i < |s.cache| && s.cache[i].key.Some? ==> |s.cache[i].data| == s.page)
    && (forall k :: k in s.flash ==> |s.flash[k]| == s.page)
  }

  ghost predicate Inv(s: Store) { Unique(s.cache) && Clean(s) && Sized(s) }

  /** Slot `i` can be given to another chunk without losing anything. */
  predicate Spare(s: Store, i: nat) { i < |s.cache| && (s.cache[i].key.None? || !s.cache[i].dirty) }

  lemma ChunkOfSlot(s: Store, i: nat, k: Key)
    requires Unique(s.cache) && Holds(s, i, k)
    ensures Find(s.cache, k, 0) == Some(i) && Chunk(s, k) == s.cache[i].data
  {
  }

  lemma ChunkSize(s: Store, k: Key)
    requires Sized(s)
    ensures |Chunk(s, k)| == s.page
  {
  }

  // ----- the slot operations -----

  /** Writing a slot out and freeing it. */
  function WriteBack(s: Store, i: nat): Store
    requires i < |s.cache| && s.cache[i].key.Some?
  {
    s.(flash := s.flash[s.cache[i].key.value := s.cache[i].data],
        cache := s.cache[i := s.cache[i].(key := None, dirty := false)])
  }

  lemma WriteBackSame(s: Store, i: nat, k: Key)
    requires Inv(s) && i < |s.cache| && s.cache[i].key.Some?
    ensures Inv(WriteBack(s, i)) && Chunk(WriteBack(s, i), k) == Chunk(s, k)
  {
    var t := WriteBack(s, i);
    var j := Find(s.cache, k, 0);
    if j.Some? && j.value != i { ChunkOfSlot(s, j.value, k); assert Holds(t, j.value, k); ChunkOfSlot(t, j.value, k); }
    if j == Some(i) { assert Find(t.cache, k, 0).None?; }
  }

  /** A free slot, or a clean one, is loaded with chunk `k`. */
  function Load(s: Store, i: nat, k: Key): Store
    requires i < |s.cache|
  {
    s.(cache := s.cache[i := Slot(Some(k), false, OnFlash(s, k), 0, s.cache[i].lastUse)])
  }

  lemma LoadSame(s: Store, i: nat, k: Key, x: Key)
    requires Inv(s) && Spare(s, i) && Find(s.cache, k, 0).None?
    ensures Inv(Load(s, i, k)) && Chunk(Load(s, i, k), x) == Chunk(s, x) && Holds(Load(s, i, k), i, k)
  {
    var t := Load(s, i, k);
    assert Holds(t, i, k);
    ChunkOfSlot(t, i, k);
    var j := Find(s.cache, x, 0);
    if j.Some? && j.value != i { assert Holds(t, j.value, x); ChunkOfSlot(t, j.value, x); }
    if j == Some(i) { assert Find(t.cache, x, 0).None?; }
    if j.None? && x != k { assert Find(t.cache, x, 0).None?; }
  }

  function Splice(data: Bytes, start: nat, bytes: Bytes): Bytes
    requires start + |bytes| <= |data|
  {
    data[..start] + bytes + data[start + |bytes|..]
  }

  /** A write into a cached chunk. */
  function Poke(s: Store, i: nat, start: nat, bytes: Bytes, nBytes: nat, use: int): Store
    requires i < |s.cache| && start + |bytes| <= |s.cache[i].data|
  {
    s.(cache := s.cache[i := s.cache[i].(data := Splice(s.cache[i].data, start, bytes), nBytes := nBytes,
                                         lastUse := use, dirty := true)])
  }

  lemma PokeChanges(s: Store, i: nat, start: nat, bytes: Bytes, nBytes: nat, use: int, k: Key, x: Key)
    requires Inv(s) && Holds(s, i, k) && start + |bytes| <= s.page
    ensures var t := Poke(s, i, start, bytes, nBytes, use);
      && Inv(t) && |Chunk(s, k)| == s.page && Holds(t, i, k)
      && Chunk(t, x) == if x == k then Splice(Chunk(s, k), start, bytes) else Chunk(s, x)
  {
    var t := Poke(s, i, start, bytes, nBytes, use);
    ChunkOfSlot(s, i, k);
    assert Holds(t, i, k);
    ChunkOfSlot(t, i, k);
    if x != k {
      var j := Find(s.cache, x, 0);
      if j.Some? { assert Holds(t, j.value, x); ChunkOfSlot(t, j.value, x); } else { assert Find(t.cache, x, 0).None?; }
    }
  }

  /** Writing a slot out and keeping it, as a write-through does. */
  function WriteThrough(s: Store, i: nat): Store
    requires i < |s.cache| && s.cache[i].key.Some?
  {
    s.(flash := s.flash[s.cache[i].key.value := s.cache[i].data], cache := s.cache[i := s.cache[i].(dirty := false)])
  }

  lemma WriteThroughSame(s: Store, i: nat, k: Key)
    requires Inv(s) && i < |s.cache| && s.cache[i].key.Some?
    ensures Inv(WriteThrough(s, i)) && Chunk(WriteThrough(s, i), k) == Chunk(s, k)
  {
    var t := WriteThrough(s, i);
    var j := Find(s.cache, k, 0);
    if j.Some? { ChunkOfSlot(s, j.value, k); assert Holds(t, j.value, k); ChunkOfSlot(t, j.value, k); }
    else { assert Find(t.cache, k, 0).None?; }
  }

  /** A whole chunk goes straight to flash, and a cached copy is dropped. */
  function WriteWhole(s: Store, k: Key, bytes: Bytes): Store {
    var i := Find(s.cache, k, 0);
    s.(flash := s.flash[k := bytes],
       cache := if i.Some? then s.cache[i.value := s.cache[i.value].(key := None)] else s.cache)
  }

  lemma WriteWholeChanges(s: Store, k: Key, bytes: Bytes, x: Key)
    requires Inv(s) && |bytes| == s.page
    ensures Inv(WriteWhole(s, k, bytes)) && Chunk(WriteWhole(s, k, bytes), x) == if x == k then bytes else Chunk(s, x)
  {
    var t := WriteWhole(s, k, bytes);
    var i := Find(s.cache, k, 0);
    assert Find(t.cache, k, 0).None?;
    if x != k {
      var j := Find(s.cache, x, 0);
      if j.Some? { ChunkOfSlot(s, j.value, x); assert Holds(t, j.value, x); ChunkOfSlot(t, j.value, x); }
      else { assert Find(t.cache, x, 0).None?; }
    }
  }
}
