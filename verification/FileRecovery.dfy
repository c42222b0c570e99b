/** From the log back to the files: the bytes a mount brings back are those of the plain byte arrays. */
module FileRecovery {
  import opened Basics
  import opened BlockTable
  import opened FlashLog
  import opened FlashOps
  import opened MountScan
  import opened FlashRuns
  import opened FlashRecovery
  import FileCache
  import FileBytes
  import FileRefinement

  type Key = FileCache.Key

  /** The chunks the cache sees on flash, and the file sizes. */
  datatype Disk = Disk(chunks: map<Key, Bytes>, sizes: map<nat, nat>)

  const NO_FILES := Disk(map[], map[])

  function KeyOf(o: nat, c: nat): Key { FileCache.Key(o, c) }

  /** The last write to a chunk wins; collections and headers change nothing. */
  function Effect(s: Sys, op: FlashRuns.Op, k: Disk): Disk
    requires Allowed(s, op)
  {
    var v := s.v;
    match op
    case CreateFile(o, hdr, ok) => if PutHeader(v, o, false, hdr, ok).1 then k.(sizes := k.sizes[o := 0]) else k
    case WriteChunk(o, c, n, bytes, ok) =>
      if PutChunk(v, o, c, n, bytes, EndWith(v, o, c, n), ok).1 then k.(chunks := k.chunks[KeyOf(o, c) := bytes]) else k
    case EndWrite(o) => k.(sizes := k.sizes[o := v.files[o].end])
    case GrowSize(o, size) => k.(sizes := k.sizes[o := size])
    case CutChunk(c) => k.(chunks := k.chunks - {KeyOf(s.pend.obj, c)})
    case CutTail(tail) =>
      if Ragged(v.chunkBytes, s.pend.size) && FlashOps.CutTail(v, s.pend.obj, s.pend.size, tail).1
      then k.(chunks := k.chunks[KeyOf(s.pend.obj, ChunksIn(v.chunkBytes, s.pend.size)) := tail]) else k
    case CutSize => k.(sizes := k.sizes[s.pend.obj := s.pend.size])
    case _ => k
  }

  function DiskAfter(s: Sys, ops: seq<FlashRuns.Op>, k: Disk): Disk
    decreases |ops|
  {
    if ops == [] || !Allowed(s, ops[0]) then k else DiskAfter(Step(s, ops[0]), ops[1..], Effect(s, ops[0], k))
  }

  // ----- the log backs the disk -----

  predicate BackedAt(v: Dev, k: Disk, o: nat, c: nat) {
    && (KeyOf(o, c) in k.chunks <==> Body(v, o, c).Some?)
    && (KeyOf(o, c) in k.chunks ==> k.chunks[KeyOf(o, c)] == Body(v, o, c).value.1)
  }

  predicate SizedAt(v: Dev, k: Disk, o: nat) {
    (o in k.sizes <==> o in v.files) && (o in v.files ==> k.sizes[o] == v.files[o].size)
  }

  ghost predicate Backed(v: Dev, k: Disk) {
    (forall o, c :: BackedAt(v, k, o, c)) && (forall o :: SizedAt(v, k, o))
  }

  /** Everything at (o, c) and the size of `o` are as before. */
  predicate Untouched(v: Dev, w: Dev, o: nat, c: nat) {
    && Body(w, o, c) == Body(v, o, c)
    && (o in w.files <==> o in v.files) && (o in v.files ==> w.files[o].size == v.files[o].size)
  }

  lemma UntouchedBacked(v: Dev, w: Dev, k: Disk, o: nat, c: nat)
    requires BackedAt(v, k, o, c) && SizedAt(v, k, o) && Untouched(v, w, o, c)
    ensures BackedAt(w, k, o, c) && SizedAt(w, k, o)
  {
    hide Body;
  }

  lemma HeaderUntouched(v: Dev, p: nat, shrink: bool, hdr: Bytes, ok: bool, o: nat, c: nat)
    requires Sound(v) && (p in v.files || o != p)
    ensures Untouched(v, PutHeader(v, p, shrink, hdr, ok).0, o, c)
  {
    hide Sound, PutHeader, Body, HeaderBody;
    PutHeaderFails(v, p, shrink, hdr, ok, o, c);
    if PutHeader(v, p, shrink, hdr, ok).1 { PutHeaderBody(v, p, shrink, hdr, ok, o, c); }
  }

  lemma CreateBacked(v: Dev, p: nat, hdr: Bytes, ok: bool, k: Disk, o: nat, c: nat)
    requires Sound(v) && p !in v.files && BackedAt(v, k, o, c) && SizedAt(v, k, o)
    ensures var (w, done) := PutHeader(v, p, false, hdr, ok);
      var l := if done then k.(sizes := k.sizes[p := 0]) else k;
      BackedAt(w, l, o, c) && SizedAt(w, l, o)
  {
    hide Sound, PutHeader, Body, HeaderBody;
    PutHeaderFails(v, p, false, hdr, ok, o, c);
    if PutHeader(v, p, false, hdr, ok).1 {
      PutHeaderBody(v, p, false, hdr, ok, o, c);
      PutHeaderShape(v, p, false, hdr, ok);
    }
  }

  lemma ChunkBacked(v: Dev, p: nat, e: nat, n: nat, bytes: Bytes, end: nat, ok: bool, k: Disk, o: nat, c: nat)
    requires Sound(v) && p in v.files && BackedAt(v, k, o, c) && SizedAt(v, k, o)
    ensures var (w, done) := PutChunk(v, p, e, n, bytes, end, ok);
      var l := if done then k.(chunks := k.chunks[KeyOf(p, e) := bytes]) else k;
      BackedAt(w, l, o, c) && SizedAt(w, l, o)
  {
    hide Sound, AllocChunk, Delete, LinkData, Body, HeaderBody;
    if PutChunk(v, p, e, n, bytes, end, ok).1 {
      hide PutChunk;
      PutChunkBody(v, p, e, n, bytes, end, ok, o, c);
      PutChunkSizes(v, p, e, n, bytes, end, ok);
    } else {
      SameUntouched(v, PutChunk(v, p, e, n, bytes, end, ok).0, o, c);
    }
  }

  lemma CutBacked(v: Dev, p: nat, e: nat, k: Disk, o: nat, c: nat)
    requires Sound(v) && p in v.files && e in v.files[p].chunks && BackedAt(v, k, o, c) && SizedAt(v, k, o)
    ensures var l := k.(chunks := k.chunks - {KeyOf(p, e)});
      BackedAt(CutOne(v, p, e), l, o, c) && SizedAt(CutOne(v, p, e), l, o)
  {
    hide Sound, Body, Delete;
    DeleteShape(Unlink(v, p, e), v.files[p].chunks[e]);
    UnlinkBody(v, p, e, o, c);
  }

  lemma TailBacked(v: Dev, p: nat, size: nat, tail: Bytes, k: Disk, o: nat, c: nat)
    requires Sound(v) && v.chunkBytes > 0 && p in v.files && size <= v.files[p].end
    requires BackedAt(v, k, o, c) && SizedAt(v, k, o)
    ensures var (w, done) := FlashOps.CutTail(v, p, size, tail);
      var l := if Ragged(v.chunkBytes, size) && done
               then k.(chunks := k.chunks[KeyOf(p, ChunksIn(v.chunkBytes, size)) := tail]) else k;
      BackedAt(w, l, o, c) && SizedAt(w, l, o)
  {
    hide Sound, PutChunk, Body, BackedAt, SizedAt, Ragged, Base;
    if Ragged(v.chunkBytes, size) {
      var i := ChunksIn(v.chunkBytes, size);
      TailGood(v, p, size, tail, Nothing);
      ChunkBacked(v, p, i, size - Base(v.chunkBytes, i), tail, v.files[p].end, true, k, o, c);
    }
  }

  lemma SizeBacked(v: Dev, p: nat, size: nat, end: nat, k: Disk, o: nat, c: nat)
    requires p in v.files && BackedAt(v, k, o, c) && SizedAt(v, k, o)
    ensures var l := k.(sizes := k.sizes[p := size]);
      BackedAt(SetSize(v, p, size, end), l, o, c) && SizedAt(SetSize(v, p, size, end), l, o)
  {
    hide Body;
    SetSizeShape(v, p, size, end);
  }

  lemma GcUntouched(v: Dev, a: Addr, o: nat, c: nat)
    requires Sound(v) && InUse(v, a)
    ensures Untouched(v, GcCopy(v, a).0, o, c)
  {
    hide Sound, InUse, GcCopy, Body, HeaderBody;
    GcCopySame(v, a);
  }

  lemma StartedUntouched(v: Dev, i: nat, pend: Pending, o: nat, c: nat)
    requires FlashLog.Inv(v, {}, pend) && GcSafe(v.t, i)
    ensures Untouched(v, Started(v, i), o, c)
  {
    hide FlashLog.Inv, Index, Hdrs, Pages, BlockTable.Inv, Erasable;
    var b := v.(t := GcBegin(v.t, i));
    GcBeginKept(v, i, pend);
    if b.t.blocks[i].pagesInUse == 0 && b.t.blocks[i].state == Collecting {
      InvSound(b, {}, pend);
      EmptyErasable(b, i);
      EraseContents(b, i);
    }
  }

  lemma StepBacked(s: Sys, op: FlashRuns.Op, k: Disk, o: nat, c: nat)
    requires FlashRuns.Inv(s) && Allowed(s, op) && BackedAt(s.v, k, o, c) && SizedAt(s.v, k, o)
    ensures BackedAt(Step(s, op).v, Effect(s, op, k), o, c) && SizedAt(Step(s, op).v, Effect(s, op, k), o)
  {
    var v := s.v;
    InvSound(v, {}, s.pend);
    hide FlashLog.Inv, Sound, PutHeader, PutChunk, SkipRest, GcSafe, GcEnd, CutReady, Base, BackedAt, SizedAt, Body;
    hide NotShorter, GcCopy, InUse, Started, CutOne, EndWith, FlashOps.CutTail, SetSize, Ragged, Untouched;
    match op
    case CreateFile(p, hdr, ok) => CreateBacked(v, p, hdr, ok, k, o, c);
    case WriteChunk(p, e, n, bytes, ok) => ChunkBacked(v, p, e, n, bytes, EndWith(v, p, e, n), ok, k, o, c);
    case EndWrite(p) => SizeBacked(v, p, v.files[p].end, v.files[p].end, k, o, c);
    case GrowSize(p, size) => SizeBacked(v, p, size, size, k, o, c);
    case CutChunk(e) => CutBacked(v, s.pend.obj, e, k, o, c);
    case CutTail(tail) => TailBacked(v, s.pend.obj, s.pend.size, tail, k, o, c);
    case CutSize => SizeBacked(v, s.pend.obj, s.pend.size, s.pend.size, k, o, c);
    case _ =>
      if op.CacheChunk? || op.BeginCut? || op.GcFinish? || op.SkipBlock? {
        RamUntouched(s, op, o, c);
      } else {
        StepUntouched(s, op, o, c);
      }
      UntouchedBacked(v, Step(s, op).v, k, o, c);
  }

  lemma SameUntouched(v: Dev, w: Dev, o: nat, c: nat)
    requires w.flash == v.flash && w.files.Keys == v.files.Keys
    requires forall p :: p in v.files ==> w.files[p].size == v.files[p].size && w.files[p].chunks == v.files[p].chunks
    ensures Untouched(v, w, o, c)
  {
  }

  /** The steps that write a header or collect change no chunk and no size. */
  lemma StepUntouched(s: Sys, op: FlashRuns.Op, o: nat, c: nat)
    requires FlashRuns.Inv(s) && Allowed(s, op)
    requires op.FlushHeader? || op.HoleHeader? || op.GrowHeader? || op.SealCut? || op.GcStart? || op.GcMove?
    ensures Untouched(s.v, Step(s, op).v, o, c)
  {
    var v := s.v;
    InvSound(v, {}, s.pend);
    hide FlashLog.Inv, Sound, PutHeader, GcSafe, InUse, Base, GcCopy, Started, Untouched, Body;
    match op
    case FlushHeader(p, hdr) => HeaderUntouched(v, p, false, hdr, true, o, c);
    case HoleHeader(p, hdr) => HeaderUntouched(v, p, true, hdr, true, o, c);
    case GrowHeader(p, hdr) => HeaderUntouched(v, p, false, hdr, true, o, c);
    case SealCut(hdr) => HeaderUntouched(v, s.pend.obj, false, hdr, true, o, c);
    case GcStart(i) => StartedUntouched(v, i, s.pend, o, c);
    case GcMove(a) => GcUntouched(v, a, o, c);
  }

  /** Neither do those that change RAM alone, but for the sizes. */
  lemma RamUntouched(s: Sys, op: FlashRuns.Op, o: nat, c: nat)
    requires Allowed(s, op) && (op.CacheChunk? || op.BeginCut? || op.GcFinish? || op.SkipBlock?)
    ensures Untouched(s.v, Step(s, op).v, o, c)
  {
    hide Untouched, SkipRest, GcEnd, EndWith, Base;
    SameUntouched(s.v, Step(s, op).v, o, c);
  }

  lemma {:induction false} RunBacked(s: Sys, ops: seq<FlashRuns.Op>, w: Sys, k: Disk)
    requires FlashRuns.Inv(s) && FlashRuns.Run(s, ops, w) && Backed(s.v, k)
    ensures Backed(w.v, DiskAfter(s, ops, k))
    decreases |ops|
  {
    hide FlashRuns.Inv, Step, Allowed, Effect, BackedAt, SizedAt;
    if ops != [] {
      StepInv(s, ops[0]);
      forall o, c ensures BackedAt(Step(s, ops[0]).v, Effect(s, ops[0], k), o, c) { StepBacked(s, ops[0], k, o, c); }
      forall o ensures SizedAt(Step(s, ops[0]).v, Effect(s, ops[0], k), o) { StepBacked(s, ops[0], k, o, 0); }
      RunBacked(Step(s, ops[0]), ops[1..], w, Effect(s, ops[0], k));
    }
  }

  // ----- reading after a mount -----

  /** A byte of file `o`, read through the chunk map a mount has found. */
  function ReadBack(f: map<Addr, Page>, m: Scan, page: nat, o: nat, off: nat): bv8
    requires page > 0
  {
    var c := FileBytes.ChunkOf(off, page) + 1;
    if o in m && c in m[o].chunks && IsData(f, m[o].chunks[c], o, c)
       && FileBytes.StartOf(off, page) < |f[m[o].chunks[c]].bytes|
    then f[m[o].chunks[c]].bytes[FileBytes.StartOf(off, page)] else 0
  }

  lemma ReadsBody(v: Dev, m: Scan, o: nat, off: nat)
    requires v.chunkBytes > 0 && Recovered(v, m, o)
    ensures var b := Body(v, o, FileBytes.ChunkOf(off, v.chunkBytes) + 1);
      ReadBack(v.flash, m, v.chunkBytes, o, off) ==
        if b.Some? && FileBytes.StartOf(off, v.chunkBytes) < |b.value.1|
        then b.value.1[FileBytes.StartOf(off, v.chunkBytes)] else 0
  {
  }

  /** Without dirty slots a file reads as its chunks on flash do, and zeros where there are none. */
  lemma ReadsFlash(s: FileCache.Store, o: nat, off: nat)
    requires FileCache.Inv(s) && s.page > 0
    requires forall i :: 0 <= i < |s.cache| ==> !FileBytes.DirtyOf(s.cache[i], o)
    ensures var k := KeyOf(o, FileBytes.ChunkOf(off, s.page) + 1);
      && (k in s.flash ==> FileBytes.StartOf(off, s.page) < |s.flash[k]|)
      && FileBytes.ByteAt(s, o, off) == if k in s.flash then s.flash[k][FileBytes.StartOf(off, s.page)] else 0
  {
    var k := KeyOf(o, FileBytes.ChunkOf(off, s.page) + 1);
    var i := FileCache.Find(s.cache, k, 0);
    if i.Some? { assert !FileBytes.DirtyOf(s.cache[i.value], o); }
  }

  /** The store that the cache sits on is what the log has been told to keep. */
  predicate OnDisk(s: FileCache.Store, k: Disk) { s.flash == k.chunks && s.sizes == k.sizes }

  /** What the cache writes out is what the log is told: a slot written back, or through, or a whole chunk. */
  lemma CacheWrites(s: FileCache.Store, k: Disk, x: Sys, op: FlashRuns.Op, i: nat)
    requires OnDisk(s, k) && op.WriteChunk? && Allowed(x, op)
    requires PutChunk(x.v, op.obj, op.id, op.nBytes, op.bytes, EndWith(x.v, op.obj, op.id, op.nBytes), op.reserveOk).1
    ensures OnDisk(FileCache.WriteWhole(s, KeyOf(op.obj, op.id), op.bytes), Effect(x, op, k))
    ensures FileCache.Holds(s, i, KeyOf(op.obj, op.id)) && s.cache[i].data == op.bytes ==>
      OnDisk(FileCache.WriteBack(s, i), Effect(x, op, k)) && OnDisk(FileCache.WriteThrough(s, i), Effect(x, op, k))
  {
    hide PutChunk, EndWith, Allowed;
  }

  lemma ByteMatches(v: Dev, m: Scan, s: FileCache.Store, k: Disk, o: nat, off: nat)
    requires v.chunkBytes > 0 && s.page == v.chunkBytes && Recovered(v, m, o) && Backed(v, k) && OnDisk(s, k)
    requires FileCache.Inv(s) && forall i :: 0 <= i < |s.cache| ==> !FileBytes.DirtyOf(s.cache[i], o)
    ensures ReadBack(v.flash, m, v.chunkBytes, o, off) == FileBytes.ByteAt(s, o, off)
  {
    hide Body, ReadBack, FileBytes.ByteAt, FileCache.Inv, Recovered;
    ReadsBody(v, m, o, off);
    ReadsFlash(s, o, off);
    assert BackedAt(v, k, o, FileBytes.ChunkOf(off, s.page) + 1);
  }

  lemma BlankBacked(cpb: nat, n: nat, chunkBytes: nat)
    ensures Backed(Blank(cpb, n, chunkBytes).v, NO_FILES)
  {
  }

  /** The whole way: files are written through the cache as plain byte arrays are, the log does what it is
      told, with collections in between, and the file has been flushed. Then a mount comes back with the
      length of the plain array and, chunk by chunk from flash, with its bytes. */
  lemma MountReadsPlain(cpb: nat, n: nat, chunkBytes: nat, ops: seq<FlashRuns.Op>, w: Sys, log: seq<Addr>, o: nat,
      s: FileCache.Store, f: FileRefinement.Plain, off: nat)
    requires cpb > 0 && chunkBytes > 0 && FlashRuns.Run(Blank(cpb, n, chunkBytes), ops, w) && ScanOrder(w.v.flash, log)
    requires o in w.v.files && !Cuts(w.pend, o) && w.v.files[o].late == {}
    requires Follow(Blank(cpb, n, chunkBytes), ops, o, UNTRACED) == Trace({}, w.v.files[o].size)
    requires s.page == w.v.chunkBytes && OnDisk(s, DiskAfter(Blank(cpb, n, chunkBytes), ops, NO_FILES))
    requires FileRefinement.Shows(s, f) && forall i :: 0 <= i < |s.cache| ==> !FileBytes.DirtyOf(s.cache[i], o)
    ensures var m := ScanLog(w.v.flash, log, w.v.chunkBytes);
      && o in m && m[o].size == |FileRefinement.Get(f, o)|
      && ReadBack(w.v.flash, m, s.page, o, off) == FileRefinement.At(FileRefinement.Get(f, o), off)
  {
    hide FlashLog.Inv, ScanLog, FlashRuns.Run, Follow, DiskAfter, Backed, ReadBack, FileBytes.ByteAt, FileCache.Inv;
    hide FileRefinement.Get, FileRefinement.At;
    var k := DiskAfter(Blank(cpb, n, chunkBytes), ops, NO_FILES);
    var m := ScanLog(w.v.flash, log, w.v.chunkBytes);
    BlankInv(cpb, n, chunkBytes);
    BlankBacked(cpb, n, chunkBytes);
    RunBacked(Blank(cpb, n, chunkBytes), ops, w, NO_FILES);
    MountAfterRun(cpb, n, chunkBytes, ops, w, log, o);
    ByteMatches(w.v, m, s, k, o, off);
    BackedSize(w.v, k, o);
    ShowsAt(s, f, o, off);
  }

  lemma ShowsAt(s: FileCache.Store, f: FileRefinement.Plain, o: nat, off: nat)
    requires FileRefinement.Shows(s, f)
    ensures FileCache.Sized(s) && FileBytes.SizeOf(s, o) == |FileRefinement.Get(f, o)|
    ensures FileBytes.ByteAt(s, o, off) == FileRefinement.At(FileRefinement.Get(f, o), off)
  {
    hide FileBytes.ByteAt;
  }

  lemma BackedSize(v: Dev, k: Disk, o: nat)
    requires Backed(v, k) && o in v.files
    ensures o in k.sizes && k.sizes[o] == v.files[o].size
  {
    assert SizedAt(v, k, o);
  }
}
