/** All runs of the log structured store. A step is one page written or dropped, one assignment to a file
    size, or the start or end of a collection: between any two page writes any other step may come. */
module FlashRuns {
  import opened Basics
  import opened BlockTable
  import opened FlashLog
  import opened FlashOps
  import opened MountScan
  import opened ScanOrdering

  /** The device and the resize it is in the middle of. */
  datatype Sys = Sys(v: Dev, pend: Pending)

  datatype Op =
    | CreateFile(obj: nat, hdr: Bytes, reserveOk: bool)
    | FlushHeader(obj: nat, hdr: Bytes)
    | HoleHeader(obj: nat, hdr: Bytes)               // before a write or a resize past the end
    | WriteChunk(obj: nat, id: nat, nBytes: nat, bytes: Bytes, reserveOk: bool)
    | CacheChunk(obj: nat, id: nat, nBytes: nat)     // the chunk stays in the cache
    | EndWrite(obj: nat)                             // a write call sets the size it has reached
    | GrowSize(obj: nat, size: nat)                  // a resize upwards sets the size
    | GrowHeader(obj: nat, hdr: Bytes)               // and records it
    | BeginCut(obj: nat, size: nat)
    | CutChunk(id: nat)
    | CutTail(tail: Bytes)
    | CutSize
    | SealCut(hdr: Bytes)                            // the header that ends a truncation
    | GcStart(block: nat)
    | GcMove(page: Addr)
    | GcFinish(block: nat)
    | SkipBlock

  /** n_writeback: what is written back is no less than what was there. */
  predicate NotShorter(v: Dev, o: nat, c: nat, n: nat) {
    && o in v.files
    && (c in v.files[o].chunks && IsData(v.flash, v.files[o].chunks[c], o, c) ==>
          v.flash[v.files[o].chunks[c]].nBytes <= n)
  }

  /** Chunk `c` lies inside the file or at its end, or the file is open to grow. */
  predicate InReach(s: Sys, o: nat, c: nat, n: nat) {
    && o in s.v.files && c >= 1 && 0 < n <= s.v.chunkBytes && !s.pend.Cutting?
    && (Base(s.v.chunkBytes, c) <= s.v.files[o].end || s.pend == Opening(o))
  }

  predicate AtRest(v: Dev, o: nat) { o in v.files && v.files[o].size == v.files[o].end }

  predicate CutUnderWay(s: Sys) { s.pend.Cutting? && s.pend.obj in s.v.files && s.v.chunkBytes > 0 }

  /** The demands the source's own callers meet. One resize is under way at a time, and only blocks cleared
      by the shrink header rule are collected. */
  predicate Allowed(s: Sys, op: Op) {
    var v, d := s.v, s.v.chunkBytes;
    match op
    case CreateFile(o, _, _) => s.pend == Nothing && o !in v.files
    case FlushHeader(o, _) => s.pend == Nothing && o in v.files
    case HoleHeader(o, _) => s.pend == Nothing && AtRest(v, o)
    case WriteChunk(o, c, n, _, _) => InReach(s, o, c, n) && NotShorter(v, o, c, n)
    case CacheChunk(o, c, n) => InReach(s, o, c, n)
    case EndWrite(o) => o in v.files && !s.pend.Cutting?
    case GrowSize(o, size) => s.pend == Opening(o) && o in v.files && size > v.files[o].end
    case GrowHeader(o, _) => s.pend == Opening(o) && o in v.files
    case BeginCut(o, size) => s.pend == Nothing && AtRest(v, o) && size < v.files[o].size && v.files[o].late == {}
    case CutChunk(c) => CutUnderWay(s) && c in v.files[s.pend.obj].chunks && s.pend.size <= Base(d, c)
    case CutTail(_) => CutUnderWay(s) && s.pend.size <= v.files[s.pend.obj].end
    case CutSize => CutUnderWay(s) && CutReady(v, s.pend.obj, s.pend.size)
    case SealCut(_) => CutUnderWay(s) && AtRest(v, s.pend.obj) && v.files[s.pend.obj].size == s.pend.size
    case GcStart(i) => GcSafe(v.t, i)
    case GcMove(a) => InUse(v, a) && a.block < |v.t.blocks| && v.t.blocks[a.block].state == Collecting
    case GcFinish(_) => true
    case SkipBlock => true
  }

  /** The collection begins; a block without a page in use is erased at once. */
  function Started(v: Dev, i: nat): Dev
    requires i < |v.t.blocks|
  {
    var b := v.(t := GcBegin(v.t, i));
    if b.t.blocks[i].pagesInUse == 0 && b.t.blocks[i].state == Collecting then Erase(b, i) else b
  }

  function CutOne(v: Dev, o: nat, c: nat): Dev
    requires o in v.files && c in v.files[o].chunks
  {
    Delete(Unlink(v, o, c), v.files[o].chunks[c])
  }

  function Step(s: Sys, op: Op): Sys
    requires Allowed(s, op)
  {
    var v, d := s.v, s.v.chunkBytes;
    match op
    case CreateFile(o, hdr, ok) => s.(v := PutHeader(v, o, false, hdr, ok).0)
    case FlushHeader(o, hdr) => s.(v := PutHeader(v, o, false, hdr, true).0)
    case HoleHeader(o, hdr) =>
      var (h, ok) := PutHeader(v, o, true, hdr, true);
      Sys(h, if ok then Opening(o) else Nothing)
    case WriteChunk(o, c, n, bytes, ok) => s.(v := PutChunk(v, o, c, n, bytes, EndWith(v, o, c, n), ok).0)
    case CacheChunk(o, c, n) => s.(v := Hold(v, o, c, EndWith(v, o, c, n)))
    case EndWrite(o) => Sys(FlashOps.EndWrite(v, o), if s.pend == Opening(o) then Nothing else s.pend)
    case GrowSize(o, size) => s.(v := SetSize(v, o, size, size))
    case GrowHeader(o, hdr) => Sys(PutHeader(v, o, false, hdr, true).0, Nothing)
    case BeginCut(o, size) => s.(pend := Cutting(o, size))
    case CutChunk(c) => s.(v := CutOne(v, s.pend.obj, c))
    case CutTail(tail) => s.(v := FlashOps.CutTail(v, s.pend.obj, s.pend.size, tail).0)
    case CutSize => s.(v := SetSize(v, s.pend.obj, s.pend.size, s.pend.size))
    case SealCut(hdr) =>
      var (w, ok) := PutHeader(v, s.pend.obj, false, hdr, true);
      Sys(w, if ok then Nothing else s.pend)
    case GcStart(i) => s.(v := Started(v, i))
    case GcMove(a) => s.(v := GcCopy(v, a).0)
    case GcFinish(i) => s.(v := v.(t := GcEnd(v.t, i)))
    case SkipBlock => s.(v := v.(t := SkipRest(v.t)))
  }

  ghost predicate Inv(s: Sys) { FlashLog.Inv(s.v, {}, s.pend) }

  // ----- every step keeps the invariant -----

  lemma SkipInv(v: Dev, pend: Pending)
    requires FlashLog.Inv(v, {}, pend)
    ensures FlashLog.Inv(v.(t := SkipRest(v.t)), {}, pend)
  {
    SkipRestInv(v.t);
    SkipSame(v.t);
    hide SameLog, BlockTable.Inv, FlashLog.Inv, SkipRest;
    RetableInv(v, SkipRest(v.t), {}, {}, pend);
  }

  lemma SkipSame(t: Table)
    ensures SameLog(t, SkipRest(t)) && SkipRest(t).bits == t.bits
  {
  }

  lemma StartedInv(v: Dev, i: nat, pend: Pending)
    requires FlashLog.Inv(v, {}, pend) && GcSafe(v.t, i)
    ensures FlashLog.Inv(Started(v, i), {}, pend)
  {
    hide FlashLog.Inv;
    var b := v.(t := GcBegin(v.t, i));
    GcBeginKept(v, i, pend);
    if b.t.blocks[i].pagesInUse == 0 && b.t.blocks[i].state == Collecting { EraseInv(b, i, pend); }
  }

  lemma CutOneInv(v: Dev, o: nat, size: nat, c: nat)
    requires FlashLog.Inv(v, {}, Cutting(o, size)) && o in v.files && c in v.files[o].chunks
    requires size <= Base(v.chunkBytes, c)
    ensures FlashLog.Inv(CutOne(v, o, c), {}, Cutting(o, size))
  {
    hide FlashLog.Inv, Delete, Unlink;
    PruneStep(v, o, c, size);
  }

  lemma CacheInv(v: Dev, o: nat, c: nat, n: nat, pend: Pending)
    requires FlashLog.Inv(v, {}, pend) && InReach(Sys(v, pend), o, c, n)
    ensures FlashLog.Inv(Hold(v, o, c, EndWith(v, o, c, n)), {}, pend)
  {
    hide FlashLog.Inv, GoodWrite, NoNewHole;
    EndWithGood(v, o, c, n, [], pend);
    HoldInv(v, o, c, n, EndWith(v, o, c, n), pend);
  }

  lemma EndStepInv(v: Dev, o: nat, pend: Pending)
    requires FlashLog.Inv(v, {}, pend) && !pend.Cutting?
    ensures FlashLog.Inv(FlashOps.EndWrite(v, o), {}, if pend == Opening(o) then Nothing else pend)
  {
    hide FlashLog.Inv;
    EndWriteInv(v, o, pend);
    if pend == Opening(o) { OpeningEnds(FlashOps.EndWrite(v, o), o); }
  }

  lemma HeaderStepInv(v: Dev, o: nat, hdr: Bytes, reserveOk: bool, pend: Pending)
    requires FlashLog.Inv(v, {}, pend)
    ensures FlashLog.Inv(PutHeader(v, o, false, hdr, reserveOk).0, {}, pend)
  {
    hide FlashLog.Inv, PutHeader;
    PutHeaderInv(v, o, false, hdr, reserveOk, pend, pend);
  }

  lemma StepInv(s: Sys, op: Op)
    requires Inv(s) && Allowed(s, op)
    ensures Inv(Step(s, op))
  {
    hide FlashLog.Inv, PutHeader, PutChunk, SkipRest, GcSafe, GcEnd, Delete, Unlink, CutReady, Base, ChunksIn;
    hide NotShorter, GcCopy, InUse, Started, CutOne, SetSize, Hold, EndWith, FlashOps.CutTail, FlashOps.EndWrite;
    var v := s.v;
    match op
    case CreateFile(o, hdr, ok) => HeaderStepInv(v, o, hdr, ok, s.pend);
    case FlushHeader(o, hdr) => HeaderStepInv(v, o, hdr, true, s.pend);
    case HoleHeader(o, hdr) => HoleHeaderInv(v, o, hdr);
    case WriteChunk(o, c, n, bytes, ok) => WriteChunkInv(v, o, c, n, bytes, ok, s.pend);
    case CacheChunk(o, c, n) => CacheInv(v, o, c, n, s.pend);
    case EndWrite(o) => EndStepInv(v, o, s.pend);
    case GrowSize(o, size) => SetSizeInv(v, o, size, size, s.pend);
    case GrowHeader(o, hdr) => GrowHeaderInv(v, o, hdr, s.pend);
    case BeginCut(o, size) => PendingWeaker(v, o, size);
    case CutChunk(c) => CutOneInv(v, s.pend.obj, s.pend.size, c);
    case CutTail(tail) => CutTailInv(v, s.pend.obj, s.pend.size, tail);
    case CutSize => CutReadyInv(v, s.pend.obj, s.pend.size);
    case SealCut(hdr) => SealCutInv(v, s.pend.obj, hdr);
    case GcStart(i) => StartedInv(v, i, s.pend);
    case GcMove(a) => GcCopyInv(v, a, s.pend);
    case GcFinish(i) => EndInv(v, i, s.pend);
    case SkipBlock => SkipInv(v, s.pend);
  }

  predicate Run(s: Sys, ops: seq<Op>, w: Sys)
    decreases |ops|
  {
    if ops == [] then s == w else Allowed(s, ops[0]) && Run(Step(s, ops[0]), ops[1..], w)
  }

  lemma {:induction false} RunInvariant(s: Sys, ops: seq<Op>, w: Sys)
    requires Inv(s) && Run(s, ops, w)
    ensures Inv(w)
    decreases |ops|
  {
    hide Inv, Step, Allowed;
    if ops != [] {
      StepInv(s, ops[0]);
      RunInvariant(Step(s, ops[0]), ops[1..], w);
    }
  }

  function Blank(cpb: nat, n: nat, chunkBytes: nat): Sys {
    Sys(Dev(Formatted(cpb, n), map[], map[], chunkBytes), Nothing)
  }

  lemma BlankInv(cpb: nat, n: nat, chunkBytes: nat)
    requires cpb > 0 && chunkBytes > 0
    ensures Inv(Blank(cpb, n, chunkBytes))
  {
    FormattedInv(cpb, n);
  }

  /** One yaffs_gc_block is such a run, from its start to its end. */
  function GcMoves(v: Dev, i: nat, page: nat, copies: nat): seq<Op>
    decreases v.t.cpb - page
  {
    if page >= v.t.cpb || copies == 0 || i >= |v.t.blocks| || v.t.blocks[i].state != Collecting then []
    else if Addr(i, page) in v.t.bits && InUse(v, Addr(i, page)) then
      var (w, ok) := GcCopy(v, Addr(i, page));
      [GcMove(Addr(i, page))] + if !ok || w.t.cpb != v.t.cpb then [] else GcMoves(w, i, page + 1, copies - 1)
    else GcMoves(v, i, page + 1, copies)
  }

  lemma {:induction false} MovesRun(v: Dev, i: nat, page: nat, copies: nat, pend: Pending)
    ensures Run(Sys(v, pend), GcMoves(v, i, page, copies), Sys(GcLoop(v, i, page, copies).0, pend))
    decreases v.t.cpb - page
  {
    hide GcCopy, InUse;
    if page >= v.t.cpb || copies == 0 || i >= |v.t.blocks| || v.t.blocks[i].state != Collecting {
    } else if Addr(i, page) in v.t.bits && InUse(v, Addr(i, page)) {
      var (w, ok) := GcCopy(v, Addr(i, page));
      var rest := if !ok || w.t.cpb != v.t.cpb then [] else GcMoves(w, i, page + 1, copies - 1);
      if ok && w.t.cpb == v.t.cpb { MovesRun(w, i, page + 1, copies - 1, pend); }
      assert ([GcMove(Addr(i, page))] + rest)[1..] == rest;
    } else {
      MovesRun(v, i, page + 1, copies, pend);
    }
  }

  lemma {:induction false} RunConcat(s: Sys, a: seq<Op>, w: Sys, b: seq<Op>, x: Sys)
    requires Run(s, a, w) && Run(w, b, x)
    ensures Run(s, a + b, x)
    decreases |a|
  {
    hide Step, Allowed;
    if a == [] {
      assert a + b == b;
    } else {
      RunConcat(Step(s, a[0]), a[1..], w, b, x);
      assert (a + b)[1..] == a[1..] + b;
    }
  }

  lemma RunOne(s: Sys, op: Op)
    requires Allowed(s, op)
    ensures Run(s, [op], Step(s, op))
  {
    hide Step, Allowed;
    assert [op][1..] == [];
  }

  lemma CollectIsRun(v: Dev, i: nat, page: nat, copies: nat, pend: Pending)
    requires GcSafe(v.t, i)
    ensures Run(Sys(v, pend), [GcStart(i)] + GcMoves(Started(v, i), i, page, copies) + [GcFinish(i)],
                Sys(GcBlock(v, i, page, copies), pend))
  {
    hide GcMoves, GcEnd, GcCopy;
    var b := Started(v, i);
    RunOne(Sys(v, pend), GcStart(i));
    MovesRun(b, i, page, copies, pend);
    RunConcat(Sys(v, pend), [GcStart(i)], Sys(b, pend), GcMoves(b, i, page, copies),
        Sys(GcLoop(b, i, page, copies).0, pend));
    RunOne(Sys(GcLoop(b, i, page, copies).0, pend), GcFinish(i));
    RunConcat(Sys(v, pend), [GcStart(i)] + GcMoves(b, i, page, copies), Sys(GcLoop(b, i, page, copies).0, pend),
              [GcFinish(i)], Sys(GcBlock(v, i, page, copies), pend));
  }
}
