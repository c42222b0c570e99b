/** The operations on the log: writing data and headers, truncating, extending past a hole,
    and garbage collection. */
module FlashOps {
  import opened Basics
  import opened BlockTable
  import opened FlashLog

  // ----- what a reader of the device sees -----

  /** Valid byte count and bytes of the page mapped at (o, c). */
  function Body(v: Dev, o: nat, c: nat): Option<(nat, Bytes)> {
    if o in v.files && c in v.files[o].chunks && IsData(v.flash, v.files[o].chunks[c], o, c)
    then var p := v.flash[v.files[o].chunks[c]]; Some((p.nBytes, p.bytes))
    else None
  }

  /** Everything in the object header other than its size and shrink flag. */
  function HeaderBody(v: Dev, o: nat): Option<Bytes> {
    if o in v.files && IsHeader(v.flash, v.files[o].hdr, o) then Some(v.flash[v.files[o].hdr].bytes)
    else None
  }

  predicate SameSize(v: Dev, w: Dev, o: nat) {
    o in v.files && o in w.files && w.files[o].size == v.files[o].size && w.files[o].end == v.files[o].end
  }

  ghost predicate SameContents(v: Dev, w: Dev) {
    && w.files.Keys == v.files.Keys
    && (forall o :: o in v.files ==> SameSize(v, w, o) && HeaderBody(w, o) == HeaderBody(v, o))
    && (forall o, c :: Body(w, o, c) == Body(v, o, c))
  }

  // ----- single page operations -----

  /** yaffs_wr_data_obj: write, put in the file, delete the previous chunk. */
  function PutChunk(v: Dev, o: nat, c: nat, n: nat, bytes: Bytes, end: nat, reserveOk: bool): (Dev, bool)
    requires o in v.files
  {
    var (u, r) := AllocChunk(v.t, reserveOk);
    if r.None? then (v.(t := u), false)
    else
      var w := LinkData(v, u, r.value, Data(o, c, n, u.seqNumber, bytes), end);
      (if c in v.files[o].chunks then Delete(w, v.files[o].chunks[c]) else w, true)
  }

  /** The size that a header of file `o` records. */
  function SizeIn(v: Dev, o: nat): nat { if o in v.files then v.files[o].size else 0 }

  /** yaffs_update_oh */
  function PutHeader(v: Dev, o: nat, shrink: bool, bytes: Bytes, reserveOk: bool): (Dev, bool) {
    var (u, r) := AllocChunk(v.t, reserveOk);
    if r.None? then (v.(t := u), false)
    else
      var w := LinkHeader(v, u, r.value, Header(o, SizeIn(v, o), shrink, u.seqNumber, bytes));
      var x := if o in v.files then Delete(w, v.files[o].hdr) else w;
      (if shrink then x.(t := MarkShrink(x.t, r.value.block)) else x, true)
  }

  lemma FailedAllocInv(v: Dev, reserveOk: bool, pend: Pending)
    requires FlashLog.Inv(v, {}, pend) && AllocChunk(v.t, reserveOk).1.None?
    ensures FlashLog.Inv(v.(t := AllocChunk(v.t, reserveOk).0), {}, pend)
  {
    var u := AllocChunk(v.t, reserveOk).0;
    FailedAllocSame(v.t, reserveOk);
    AllocChunkInv(v.t, reserveOk);
    hide SameLog, BlockTable.Inv, FlashLog.Inv, AllocChunk;
    RetableInv(v, u, {}, {}, pend);
  }

  lemma FailedAllocSame(t: Table, reserveOk: bool)
    requires BlockTable.Inv(t) && AllocChunk(t, reserveOk).1.None?
    ensures var u := AllocChunk(t, reserveOk).0; SameLog(t, u) && u.bits == t.bits
  {
    if t.allocBlock.None? {
      if TakeBlock(t).allocBlock.Some? { TakeBlockFacts(t); }
    }
  }

  /** The allocation facts in the form the link lemmas want them. */
  lemma AllocOk(v: Dev, reserveOk: bool, pend: Pending)
    requires FlashLog.Inv(v, {}, pend) && AllocChunk(v.t, reserveOk).1.Some?
    ensures var (u, r) := AllocChunk(v.t, reserveOk); Allocated(v.t, u, r.value) && BlockTable.Inv(u)
  {
    hide AllocChunk, Allocated;
    AllocFacts(v.t, reserveOk);
    AllocChunkInv(v.t, reserveOk);
  }

  lemma PutChunkInv(v: Dev, o: nat, c: nat, n: nat, bytes: Bytes, end: nat, reserveOk: bool, pend: Pending)
    requires FlashLog.Inv(v, {}, pend) && o in v.files
    requires GoodWrite(v, Data(o, c, n, 0, bytes), end) && NoNewHole(v, o, c, end, pend)
    ensures FlashLog.Inv(PutChunk(v, o, c, n, bytes, end, reserveOk).0, {}, pend)
  {
    var (u, r) := AllocChunk(v.t, reserveOk);
    if r.None? {
      FailedAllocInv(v, reserveOk, pend);
    } else {
      var p := Data(o, c, n, u.seqNumber, bytes);
      assert GoodWrite(v, p, end);
      hide FlashLog.Inv, GoodWrite, NoNewHole, AllocChunk, Allocated, BlockTable.Inv, LinkData, Delete;
      AllocOk(v, reserveOk, pend);
      LinkInv(v, u, r.value, p, end, pend);
      if c in v.files[o].chunks {
        DeleteInv(LinkData(v, u, r.value, p, end), v.files[o].chunks[c], pend);
      }
    }
  }

  /** Header pages written now are good: the size is the end if it is to cut. */
  predicate HeaderReady(v: Dev, o: nat, shrink: bool, pend: Pending, after: Pending) {
    GoodHeader(v, Header(o, SizeIn(v, o), shrink, 0, []), pend, after)
  }

  lemma PutHeaderInv(v: Dev, o: nat, shrink: bool, bytes: Bytes, reserveOk: bool, pend: Pending, after: Pending)
    requires FlashLog.Inv(v, {}, pend) && HeaderReady(v, o, shrink, pend, after)
    ensures var (w, ok) := PutHeader(v, o, shrink, bytes, reserveOk);
      FlashLog.Inv(w, {}, if ok then after else pend)
  {
    var (u, r) := AllocChunk(v.t, reserveOk);
    if r.None? {
      FailedAllocInv(v, reserveOk, pend);
    } else {
      var p := Header(o, SizeIn(v, o), shrink, u.seqNumber, bytes);
      assert GoodHeader(v, p, pend, after);
      hide FlashLog.Inv, GoodHeader, AllocChunk, Allocated, BlockTable.Inv, LinkHeader, Delete, MarkShrink;
      AllocOk(v, reserveOk, pend);
      HeaderInv(v, u, r.value, p, pend, after);
      var w := LinkHeader(v, u, r.value, p);
      if o in v.files { DeleteInv(w, v.files[o].hdr, after); }
      var x := if o in v.files then Delete(w, v.files[o].hdr) else w;
      if shrink { MarkInv(x, r.value.block, after); }
    }
  }

  lemma MarkInv(v: Dev, i: nat, pend: Pending)
    requires FlashLog.Inv(v, {}, pend)
    ensures FlashLog.Inv(v.(t := MarkShrink(v.t, i)), {}, pend)
  {
    MarkShrinkInv(v.t, i);
    MarkSame(v.t, i);
    hide SameLog, BlockTable.Inv, FlashLog.Inv, MarkShrink;
    RetableInv(v, MarkShrink(v.t, i), {}, {}, pend);
  }

  lemma MarkSame(t: Table, i: nat)
    ensures SameLog(t, MarkShrink(t, i)) && MarkShrink(t, i).bits == t.bits
  {
  }

  // ----- effect on the contents -----

  lemma SingletonBlock(s: set<Addr>, a: Addr, b: Addr)
    requires a in s && b in s && a.block == b.block && |InBlock(s, a.block)| == 1
    ensures a == b
  {
    var r := InBlock(s, a.block);
    assert b in r && r == {a} + (r - {a});
  }

  /** Deleting a page leaves every other page that is in use where it was. */
  lemma DeleteKeeps(v: Dev, a: Addr, b: Addr)
    requires Bits(v.t) && a in v.t.bits && b in v.t.bits && b != a && b in v.flash
    ensures b in Delete(v, a).flash && Delete(v, a).flash[b] == v.flash[b]
  {
    var t := ClearBit(v.t, a);
    if ErasesNow(t.blocks[a.block]) && b.block == a.block {
      SingletonBlock(v.t.bits, a, b);
    }
  }

  ghost predicate Sound(v: Dev) {
    BlockTable.Inv(v.t) && Pages(v) && Index(v) && Hdrs(v)
  }

  /** After the link, the page at (p, e) is the new one or the one that was there, its bit is
      set, and it is not the displaced page. */
  lemma LinkBody(v: Dev, u: Table, a: Addr, q: Page, end: nat, p: nat, e: nat)
    requires Index(v) && Hdrs(v) && q.Data? && q.obj in v.files
    requires a !in v.flash && u.bits == v.t.bits + {a}
    ensures var w := LinkData(v, u, a, q, end);
      && Body(w, p, e) == (if p == q.obj && e == q.id then Some((q.nBytes, q.bytes)) else Body(v, p, e))
      && (p in w.files && e in w.files[p].chunks ==>
            w.files[p].chunks[e] in u.bits && w.files[p].chunks[e] in w.flash
            && w.files[p].chunks[e] !in Displaced(v, q.obj, q.id))
      && HeaderBody(w, p) == HeaderBody(v, p)
      && (p in w.files ==> w.files[p].hdr in u.bits && w.files[p].hdr in w.flash
                           && w.files[p].hdr !in Displaced(v, q.obj, q.id))
  {
    var w := LinkData(v, u, a, q, end);
    if q.id in v.files[q.obj].chunks {
      assert Mapped(v.files, q.obj, q.id, v.files[q.obj].chunks[q.id])
          && Entry(v, q.obj, q.id, v.files[q.obj].chunks[q.id]);
    }
    if p in w.files && e in w.files[p].chunks && !(p == q.obj && e == q.id) {
      assert Mapped(v.files, p, e, w.files[p].chunks[e]) && Entry(v, p, e, w.files[p].chunks[e]);
    }
  }

  lemma DeleteBody(w: Dev, x: Addr, p: nat, e: nat)
    requires Bits(w.t) && x in w.t.bits
    requires p in w.files && e in w.files[p].chunks ==>
      w.files[p].chunks[e] in w.t.bits && w.files[p].chunks[e] in w.flash && w.files[p].chunks[e] != x
    requires p in w.files ==> w.files[p].hdr in w.t.bits && w.files[p].hdr in w.flash && w.files[p].hdr != x
    ensures Body(Delete(w, x), p, e) == Body(w, p, e) && HeaderBody(Delete(w, x), p) == HeaderBody(w, p)
    ensures Delete(w, x).files == w.files
  {
    if p in w.files {
      DeleteKeeps(w, x, w.files[p].hdr);
      if e in w.files[p].chunks { DeleteKeeps(w, x, w.files[p].chunks[e]); }
    }
  }

  lemma FreshPage(v: Dev, reserveOk: bool, q: Page)
    requires Sound(v) && AllocChunk(v.t, reserveOk).1.Some? && q.seqNumber == AllocChunk(v.t, reserveOk).0.seqNumber
    ensures var (u, r) := AllocChunk(v.t, reserveOk);
      && r.value !in v.flash && u.bits == v.t.bits + {r.value} && Bits(u)
      && r.value.block < |u.blocks|
      && (forall o, c :: o in v.files && c in v.files[o].chunks ==> v.files[o].chunks[c] in v.t.bits)
      && (forall o :: o in v.files ==> v.files[o].hdr in v.t.bits && v.files[o].hdr in v.flash)
      && Index(v) && Hdrs(v)
  {
    hide AllocChunk;
    AllocFacts(v.t, reserveOk);
    AllocIsNewest(v, AllocChunk(v.t, reserveOk).0, AllocChunk(v.t, reserveOk).1.value, q);
    AllocChunkInv(v.t, reserveOk);
    forall o, c | o in v.files && c in v.files[o].chunks ensures v.files[o].chunks[c] in v.t.bits {
      assert Mapped(v.files, o, c, v.files[o].chunks[c]) && Entry(v, o, c, v.files[o].chunks[c]);
    }
  }

  lemma DeleteShape(w: Dev, x: Addr)
    ensures Delete(w, x).files == w.files && |Delete(w, x).t.blocks| == |w.t.blocks|
  {
  }

  lemma PutChunkSizes(v: Dev, o: nat, c: nat, n: nat, bytes: Bytes, end: nat, reserveOk: bool)
    requires o in v.files && PutChunk(v, o, c, n, bytes, end, reserveOk).1
    ensures var w := PutChunk(v, o, c, n, bytes, end, reserveOk).0;
      && w.files.Keys == v.files.Keys
      && (forall p :: p in v.files ==>
            w.files[p].size == v.files[p].size && w.files[p].end == if p == o then end else v.files[p].end)
  {
    hide AllocChunk, Delete;
    var (u, r) := AllocChunk(v.t, reserveOk);
    var w := LinkData(v, u, r.value, Data(o, c, n, u.seqNumber, bytes), end);
    if c in v.files[o].chunks { DeleteShape(w, v.files[o].chunks[c]); }
  }

  /** A data write changes exactly the position written. */
  lemma PutChunkBody(v: Dev, o: nat, c: nat, n: nat, bytes: Bytes, end: nat, reserveOk: bool, p: nat, e: nat)
    requires Sound(v) && o in v.files && PutChunk(v, o, c, n, bytes, end, reserveOk).1
    ensures var w := PutChunk(v, o, c, n, bytes, end, reserveOk).0;
      && Body(w, p, e) == (if p == o && e == c then Some((n, bytes)) else Body(v, p, e))
      && HeaderBody(w, p) == HeaderBody(v, p)
  {
    hide Sound, Bits, AllocChunk, Index, Hdrs, Delete, Body, HeaderBody;
    var (u, r) := AllocChunk(v.t, reserveOk);
    var q := Data(o, c, n, u.seqNumber, bytes);
    var w := LinkData(v, u, r.value, q, end);
    FreshPage(v, reserveOk, q);
    LinkBody(v, u, r.value, q, end, p, e);
    if c in v.files[o].chunks { DeleteBody(w, v.files[o].chunks[c], p, e); }
  }

  lemma LinkHeaderBody(v: Dev, u: Table, a: Addr, q: Page, p: nat, e: nat)
    requires Index(v) && Hdrs(v) && q.Header? && a !in v.flash && u.bits == v.t.bits + {a}
    ensures var w := LinkHeader(v, u, a, q);
      && Body(w, p, e) == Body(v, p, e)
      && HeaderBody(w, p) == (if p == q.obj then Some(q.bytes) else HeaderBody(v, p))
      && (p in w.files && e in w.files[p].chunks ==>
            w.files[p].chunks[e] in u.bits && w.files[p].chunks[e] in w.flash
            && w.files[p].chunks[e] !in OldHeader(v, q.obj))
      && (p in w.files ==> w.files[p].hdr in u.bits && w.files[p].hdr in w.flash
                           && w.files[p].hdr !in OldHeader(v, q.obj))
  {
    var w := LinkHeader(v, u, a, q);
    if p in w.files && e in w.files[p].chunks {
      assert Mapped(v.files, p, e, w.files[p].chunks[e]) && Entry(v, p, e, w.files[p].chunks[e]);
    }
  }

  /** A header write changes no data, no other header and no size. */
  lemma PutHeaderBody(v: Dev, o: nat, shrink: bool, bytes: Bytes, reserveOk: bool, p: nat, e: nat)
    requires Sound(v) && PutHeader(v, o, shrink, bytes, reserveOk).1
    ensures var w := PutHeader(v, o, shrink, bytes, reserveOk).0;
      && Body(w, p, e) == Body(v, p, e)
      && HeaderBody(w, p) == (if p == o then Some(bytes) else HeaderBody(v, p))
      && w.files.Keys == v.files.Keys + {o}
      && (p in v.files ==> SameSize(v, w, p))
  {
    var (u, r) := AllocChunk(v.t, reserveOk);
    var q := Header(o, SizeIn(v, o), shrink, u.seqNumber, bytes);
    hide Sound, Bits, AllocChunk, Index, Hdrs;
    FreshPage(v, reserveOk, q);
    var w := LinkHeader(v, u, r.value, q);
    LinkHeaderBody(v, u, r.value, q, p, e);
    if o in v.files { DeleteBody(w, v.files[o].hdr, p, e); }
    var x := if o in v.files then Delete(w, v.files[o].hdr) else w;
    if shrink { MarkBody(x, r.value.block, p, e); }
  }

  lemma MarkBody(x: Dev, i: nat, p: nat, e: nat)
    ensures var y := x.(t := MarkShrink(x.t, i)); Body(y, p, e) == Body(x, p, e) && HeaderBody(y, p) == HeaderBody(x, p)
  {
  }

  // ----- garbage collection -----

  /** yaffs_gc_process_chunk: copy a page in use and delete the original. A header is given the size
      the file has in RAM, and is no shrink header any more. */
  function GcCopy(v: Dev, a: Addr): (Dev, bool)
    requires InUse(v, a)
  {
    match v.flash[a]
    case Data(o, c, n, _, bytes) => PutChunk(v, o, c, n, bytes, v.files[o].end, true)
    case Header(o, _, _, _, bytes) => PutHeader(v, o, false, bytes, true)
  }

  lemma GcCopyInv(v: Dev, a: Addr, pend: Pending)
    requires FlashLog.Inv(v, {}, pend) && InUse(v, a)
    ensures FlashLog.Inv(GcCopy(v, a).0, {}, pend)
  {
    match v.flash[a]
    case Data(o, c, n, s, bytes) =>
      assert Mapped(v.files, o, c, a) && Entry(v, o, c, a);
      hide FlashLog.Inv, PutChunk;
      PutChunkInv(v, o, c, n, bytes, v.files[o].end, true, pend);
    case Header(o, _, _, _, bytes) =>
      hide FlashLog.Inv, PutHeader;
      PutHeaderInv(v, o, false, bytes, true, pend, pend);
  }

  lemma InvSound(v: Dev, limbo: set<Addr>, pend: Pending)
    requires FlashLog.Inv(v, limbo, pend)
    ensures Sound(v)
  {
  }

  ghost predicate SameAt(v: Dev, w: Dev, o: nat, c: nat) {
    && Body(w, o, c) == Body(v, o, c) && HeaderBody(w, o) == HeaderBody(v, o)
    && w.files.Keys == v.files.Keys && (o in v.files ==> SameSize(v, w, o))
  }

  lemma GcCopyData(v: Dev, a: Addr, o: nat, c: nat)
    requires Sound(v) && InUse(v, a) && v.flash[a].Data?
    ensures SameAt(v, GcCopy(v, a).0, o, c)
  {
    var p := v.flash[a];
    var (w, ok) := PutChunk(v, p.obj, p.id, p.nBytes, p.bytes, v.files[p.obj].end, true);
    if ok {
      hide Sound, PutChunk;
      PutChunkSizes(v, p.obj, p.id, p.nBytes, p.bytes, v.files[p.obj].end, true);
      PutChunkBody(v, p.obj, p.id, p.nBytes, p.bytes, v.files[p.obj].end, true, o, c);
    }
  }

  lemma GcCopyHeader(v: Dev, a: Addr, o: nat, c: nat)
    requires Sound(v) && InUse(v, a) && v.flash[a].Header?
    ensures SameAt(v, GcCopy(v, a).0, o, c)
  {
    hide Sound, InUse, PutHeader, Body, HeaderBody;
    HeaderInUse(v, a);
    var p := v.flash[a];
    var (w, ok) := PutHeader(v, p.obj, false, p.bytes, true);
    PutHeaderFails(v, p.obj, false, p.bytes, true, o, c);
    if ok { PutHeaderBody(v, p.obj, false, p.bytes, true, o, c); }
  }

  lemma HeaderInUse(v: Dev, a: Addr)
    requires InUse(v, a) && v.flash[a].Header?
    ensures a in v.flash && v.flash[a].obj in v.files && HeaderBody(v, v.flash[a].obj) == Some(v.flash[a].bytes)
  {
  }

  /** Without a page to write to, the log stays as it was. */
  lemma PutHeaderFails(v: Dev, o: nat, shrink: bool, bytes: Bytes, reserveOk: bool, p: nat, e: nat)
    ensures var (w, ok) := PutHeader(v, o, shrink, bytes, reserveOk);
      !ok ==> w.files == v.files && Body(w, p, e) == Body(v, p, e) && HeaderBody(w, p) == HeaderBody(v, p)
  {
  }

  lemma GcCopySame(v: Dev, a: Addr)
    requires Sound(v) && InUse(v, a)
    ensures SameContents(v, GcCopy(v, a).0)
  {
    var w := GcCopy(v, a).0;
    hide Sound, InUse, GcCopy, SameAt, SameContents;
    forall o, c ensures SameAt(v, w, o, c) { GcCopySameAt(v, a, o, c); }
    SameEverywhere(v, w);
  }

  lemma GcCopySameAt(v: Dev, a: Addr, o: nat, c: nat)
    requires Sound(v) && InUse(v, a)
    ensures SameAt(v, GcCopy(v, a).0, o, c)
  {
    assert v.flash[a].Data? || v.flash[a].Header?;
    hide Sound, GcCopy, SameAt;
    if v.flash[a].Data? { GcCopyData(v, a, o, c); } else { GcCopyHeader(v, a, o, c); }
  }

  lemma SameEverywhere(v: Dev, w: Dev)
    requires forall o, c :: SameAt(v, w, o, c)
    ensures SameContents(v, w)
  {
    hide Body, HeaderBody;
    assert SameAt(v, w, 0, 0);
    forall o | o in v.files ensures SameSize(v, w, o) && HeaderBody(w, o) == HeaderBody(v, o) {
      assert SameAt(v, w, o, 0);
    }
    forall o, c ensures Body(w, o, c) == Body(v, o, c) { assert SameAt(v, w, o, c); }
  }

  /** The copy loop of yaffs_gc_block, from page `page` with at most `copies` copies. */
  function GcLoop(v: Dev, i: nat, page: nat, copies: nat): (Dev, bool)
    decreases v.t.cpb - page
  {
    if page >= v.t.cpb || copies == 0 || i >= |v.t.blocks| || v.t.blocks[i].state != Collecting then (v, true)
    else if Addr(i, page) in v.t.bits && InUse(v, Addr(i, page)) then
      var (w, ok) := GcCopy(v, Addr(i, page));
      if !ok || w.t.cpb != v.t.cpb then (w, false) else GcLoop(w, i, page + 1, copies - 1)
    else GcLoop(v, i, page + 1, copies)
  }

  lemma SameContentsRefl(v: Dev)
    ensures SameContents(v, v)
  {
  }

  lemma SameContentsTrans(v: Dev, w: Dev, x: Dev)
    requires SameContents(v, w) && SameContents(w, x)
    ensures SameContents(v, x)
  {
  }

  lemma {:induction false} GcLoopKeeps(v: Dev, i: nat, page: nat, copies: nat, pend: Pending)
    requires FlashLog.Inv(v, {}, pend)
    ensures var w := GcLoop(v, i, page, copies).0; FlashLog.Inv(w, {}, pend) && SameContents(v, w)
    decreases v.t.cpb - page
  {
    hide FlashLog.Inv, Sound, InUse, SameContents, GcCopy;
    SameContentsRefl(v);
    if page >= v.t.cpb || copies == 0 || i >= |v.t.blocks| || v.t.blocks[i].state != Collecting {
    } else if Addr(i, page) in v.t.bits && InUse(v, Addr(i, page)) {
      var (w, ok) := GcCopy(v, Addr(i, page));
      GcCopyInv(v, Addr(i, page), pend);
      InvSound(v, {}, pend);
      GcCopySame(v, Addr(i, page));
      if ok && w.t.cpb == v.t.cpb {
        GcLoopKeeps(w, i, page + 1, copies - 1, pend);
        SameContentsTrans(v, w, GcLoop(w, i, page + 1, copies - 1).0);
      }
    } else {
      GcLoopKeeps(v, i, page + 1, copies, pend);
    }
  }

  /** yaffs_gc_block on a FULL block. */
  function GcBlock(v: Dev, i: nat, page: nat, copies: nat): Dev
    requires i < |v.t.blocks|
  {
    var b := v.(t := GcBegin(v.t, i));
    var w := if b.t.blocks[i].pagesInUse == 0 && b.t.blocks[i].state == Collecting then Erase(b, i)
             else GcLoop(b, i, page, copies).0;
    w.(t := GcEnd(w.t, i))
  }

  lemma EndInv(v: Dev, i: nat, pend: Pending)
    requires FlashLog.Inv(v, {}, pend)
    ensures FlashLog.Inv(v.(t := GcEnd(v.t, i)), {}, pend)
  {
    if i < |v.t.blocks| { GcEndInv(v.t, i); }
    EndSame(v.t, i);
    hide SameLog, BlockTable.Inv, FlashLog.Inv, GcEnd;
    RetableInv(v, GcEnd(v.t, i), {}, {}, pend);
  }

  lemma EndSame(t: Table, i: nat)
    ensures SameLog(t, GcEnd(t, i)) && GcEnd(t, i).bits == t.bits
  {
  }

  lemma RetableContents(v: Dev, u: Table)
    ensures SameContents(v, v.(t := u))
  {
  }

  lemma EraseContents(v: Dev, i: nat)
    requires Index(v) && Hdrs(v) && Erasable(v, i)
    ensures SameContents(v, Erase(v, i))
  {
    var w := Erase(v, i);
    forall o, c ensures Body(w, o, c) == Body(v, o, c) {
      if o in v.files && c in v.files[o].chunks {
        assert Mapped(v.files, o, c, v.files[o].chunks[c]) && Entry(v, o, c, v.files[o].chunks[c]);
      }
    }
  }

  lemma EmptyErasable(v: Dev, i: nat)
    requires BlockTable.Inv(v.t) && i < |v.t.blocks| && v.t.blocks[i].state == Collecting
    requires v.t.blocks[i].pagesInUse == 0 && !v.t.blocks[i].hasShrinkHdr
    ensures Erasable(v, i)
  {
    assert InBlock(v.t.bits, i) == {};
    forall a | a in v.t.bits ensures a.block != i { assert a.block == i ==> a in InBlock(v.t.bits, i); }
  }

  /** Garbage collection keeps the whole invariant and changes nothing a reader can see. */
  lemma GcBlockPreserves(v: Dev, i: nat, page: nat, copies: nat, pend: Pending)
    requires FlashLog.Inv(v, {}, pend) && GcSafe(v.t, i)
    ensures FlashLog.Inv(GcBlock(v, i, page, copies), {}, pend)
    ensures SameContents(v, GcBlock(v, i, page, copies))
  {
    var b := v.(t := GcBegin(v.t, i));
    hide FlashLog.Inv, Index, Hdrs, Pages, BlockTable.Inv, Erasable, SameContents;
    GcBeginKept(v, i, pend);
    RetableContents(v, GcBegin(v.t, i));
    var w := if b.t.blocks[i].pagesInUse == 0 && b.t.blocks[i].state == Collecting then Erase(b, i)
             else GcLoop(b, i, page, copies).0;
    if b.t.blocks[i].pagesInUse == 0 && b.t.blocks[i].state == Collecting {
      EraseInv(b, i, pend);
      InvSound(b, {}, pend);
      EmptyErasable(b, i);
      EraseContents(b, i);
    } else {
      GcLoopKeeps(b, i, page, copies, pend);
    }
    EndInv(w, i, pend);
    RetableContents(w, GcEnd(w.t, i));
    SameContentsTrans(v, b, w);
    SameContentsTrans(v, w, w.(t := GcEnd(w.t, i)));
  }

  // ----- writing a file -----

  function Max(a: nat, b: nat): nat { if a < b then b else a }

  /** Where the file ends once chunk `c` holds `n` bytes. */
  function EndWith(v: Dev, o: nat, c: nat, n: nat): nat
    requires o in v.files
  {
    Max(v.files[o].end, Base(v.chunkBytes, c) + n)
  }

  lemma EndWithGood(v: Dev, o: nat, c: nat, n: nat, bytes: Bytes, pend: Pending)
    requires o in v.files && c >= 1 && 0 < n <= v.chunkBytes
    requires Base(v.chunkBytes, c) <= v.files[o].end || pend == Opening(o)
    ensures GoodWrite(v, Data(o, c, n, 0, bytes), EndWith(v, o, c, n))
    ensures NoNewHole(v, o, c, EndWith(v, o, c, n), pend)
  {
  }

  /** A data chunk inside the file, or anywhere in a file ready to grow. */
  lemma WriteChunkInv(v: Dev, o: nat, c: nat, n: nat, bytes: Bytes, reserveOk: bool, pend: Pending)
    requires FlashLog.Inv(v, {}, pend) && o in v.files && c >= 1 && 0 < n <= v.chunkBytes && !pend.Cutting?
    requires Base(v.chunkBytes, c) <= v.files[o].end || pend == Opening(o)
    ensures var w := PutChunk(v, o, c, n, bytes, EndWith(v, o, c, n), reserveOk).0;
      FlashLog.Inv(w, {}, pend) && FlashLog.Inv(w, {}, Nothing)
  {
    hide FlashLog.Inv, PutChunk, GoodWrite, NoNewHole;
    EndWithGood(v, o, c, n, bytes, pend);
    PutChunkInv(v, o, c, n, bytes, EndWith(v, o, c, n), reserveOk, pend);
    if pend.Opening? { OpeningEnds(PutChunk(v, o, c, n, bytes, EndWith(v, o, c, n), reserveOk).0, pend.obj); }
  }

  /** The part of a write that falls into one chunk, with what must be written back around it, and the
      outcome of the reserve check for its page. */
  datatype Part = Part(id: nat, nBytes: nat, bytes: Bytes, reserveOk: bool)

  /** Chunk after chunk, each whole but the last. */
  predicate Consecutive(d: nat, parts: seq<Part>) {
    && (forall i :: 0 <= i < |parts| ==> parts[i].id >= 1 && 0 < parts[i].nBytes <= d)
    && (forall i :: 0 <= i < |parts| - 1 ==> parts[i].nBytes == d && parts[i + 1].id == parts[i].id + 1)
  }

  /** The loop of yaffs_do_file_wr: it moves the end of the file, not its size. */
  function WriteParts(v: Dev, o: nat, parts: seq<Part>): (Dev, bool)
    requires o in v.files
    decreases |parts|
  {
    if parts == [] then (v, true)
    else
      var p := parts[0];
      var (w, ok) := PutChunk(v, o, p.id, p.nBytes, p.bytes, EndWith(v, o, p.id, p.nBytes), p.reserveOk);
      if !ok || o !in w.files then (w, false) else WriteParts(w, o, parts[1..])
  }

  /** The assignment after the loop. */
  function EndWrite(v: Dev, o: nat): Dev {
    if o in v.files then SetSize(v, o, v.files[o].end, v.files[o].end) else v
  }

  /** yaffs_wr_file without a cache: a write past the end first leaves a hole header, a shrink header
      recording the old size; the size is set once all chunks are written. */
  function Write(v: Dev, o: nat, offset: nat, parts: seq<Part>, hdr: Bytes): (Dev, bool)
    requires o in v.files
  {
    var (h, ok) := if offset > v.files[o].size then PutHeader(v, o, true, hdr, true) else (v, true);
    if !ok || o !in h.files then (h, false)
    else
      var (w, done) := WriteParts(h, o, parts);
      (EndWrite(w, o), done)
  }

  lemma EndWriteInv(v: Dev, o: nat, pend: Pending)
    requires FlashLog.Inv(v, {}, pend)
    ensures FlashLog.Inv(EndWrite(v, o), {}, pend)
  {
    hide FlashLog.Inv;
    if o in v.files { SetSizeInv(v, o, v.files[o].end, v.files[o].end, pend); }
  }

  lemma {:induction false} WritePartsInv(v: Dev, o: nat, parts: seq<Part>, pend: Pending)
    requires FlashLog.Inv(v, {}, pend) && (pend == Nothing || pend == Opening(o)) && o in v.files
    requires Consecutive(v.chunkBytes, parts)
    requires parts != [] ==> Base(v.chunkBytes, parts[0].id) <= v.files[o].end || pend == Opening(o)
    ensures FlashLog.Inv(WriteParts(v, o, parts).0, {}, Nothing)
    decreases |parts|
  {
    hide FlashLog.Inv, PutChunk;
    if parts == [] {
      if pend.Opening? { OpeningEnds(v, o); }
    } else {
      var p := parts[0];
      var (w, ok) := PutChunk(v, o, p.id, p.nBytes, p.bytes, EndWith(v, o, p.id, p.nBytes), p.reserveOk);
      WriteChunkInv(v, o, p.id, p.nBytes, p.bytes, p.reserveOk, pend);
      if ok && o in w.files {
        PutChunkShape(v, o, p.id, p.nBytes, p.bytes, EndWith(v, o, p.id, p.nBytes), p.reserveOk);
        WritePartsInv(w, o, parts[1..], Nothing);
      }
    }
  }

  lemma PutChunkShape(v: Dev, o: nat, c: nat, n: nat, bytes: Bytes, end: nat, reserveOk: bool)
    requires o in v.files && PutChunk(v, o, c, n, bytes, end, reserveOk).1
    ensures var w := PutChunk(v, o, c, n, bytes, end, reserveOk).0;
      && o in w.files && w.files[o].size == v.files[o].size && w.files[o].end == end && w.chunkBytes == v.chunkBytes
      && w.files[o].chunks.Keys == v.files[o].chunks.Keys + {c} && w.files[o].late == v.files[o].late - {c}
  {
  }

  lemma PutHeaderShape(v: Dev, o: nat, shrink: bool, bytes: Bytes, reserveOk: bool)
    requires PutHeader(v, o, shrink, bytes, reserveOk).1
    ensures var w := PutHeader(v, o, shrink, bytes, reserveOk).0;
      && o in w.files && w.files[o].size == SizeIn(v, o) && w.chunkBytes == v.chunkBytes
      && (o in v.files ==> w.files[o] == v.files[o].(hdr := w.files[o].hdr))
  {
  }

  /** A shrink header just written marks the hole that the following growth opens. */
  lemma PutHeaderMarks(v: Dev, o: nat, bytes: Bytes, reserveOk: bool)
    requires Sound(v) && PutHeader(v, o, true, bytes, reserveOk).1 && o in v.files && v.files[o].size <= v.files[o].end
    ensures HoleMarked(PutHeader(v, o, true, bytes, reserveOk).0, o)
  {
    var (u, r) := AllocChunk(v.t, reserveOk);
    var q := Header(o, SizeIn(v, o), true, u.seqNumber, bytes);
    hide Sound, Bits, AllocChunk, Index, Hdrs;
    FreshPage(v, reserveOk, q);
    var w := LinkHeader(v, u, r.value, q);
    DeleteKeeps(w, v.files[o].hdr, r.value);
    DeleteShape(w, v.files[o].hdr);
  }

  /** A hole header leaves the file ready to grow; without space for it nothing has changed. */
  lemma HoleHeaderInv(v: Dev, o: nat, hdr: Bytes)
    requires FlashLog.Inv(v, {}, Nothing) && o in v.files && v.files[o].size == v.files[o].end
    ensures var (h, ok) := PutHeader(v, o, true, hdr, true);
      FlashLog.Inv(h, {}, if ok then Opening(o) else Nothing)
  {
    hide FlashLog.Inv, PutHeader, Sound, HoleMarked;
    var (h, ok) := PutHeader(v, o, true, hdr, true);
    PutHeaderInv(v, o, true, hdr, true, Nothing, Nothing);
    if ok {
      InvSound(v, {}, Nothing);
      PutHeaderMarks(v, o, hdr, true);
      MarkedOpens(h, o);
    }
  }

  lemma WriteInv(v: Dev, o: nat, offset: nat, parts: seq<Part>, hdr: Bytes)
    requires FlashLog.Inv(v, {}, Nothing) && o in v.files && v.files[o].size == v.files[o].end
    requires Consecutive(v.chunkBytes, parts) && (parts != [] ==> Base(v.chunkBytes, parts[0].id) <= offset)
    ensures FlashLog.Inv(Write(v, o, offset, parts, hdr).0, {}, Nothing)
  {
    hide FlashLog.Inv, PutHeader, WriteParts, Base, EndWrite, Consecutive;
    var h, pend := v, Nothing;
    if offset > v.files[o].size {
      var (g, ok) := PutHeader(v, o, true, hdr, true);
      HoleHeaderInv(v, o, hdr);
      if ok { PutHeaderShape(v, o, true, hdr, true); }
      h, pend := g, if ok then Opening(o) else Nothing;
    }
    if o in h.files && (offset > v.files[o].size ==> pend.Opening?) {
      WritePartsInv(h, o, parts, pend);
      EndWriteInv(WriteParts(h, o, parts).0, o, Nothing);
    }
  }

  /** yaffs_resize_file upwards: hole header with the old size, the new size, then a header with it. */
  function Extend(v: Dev, o: nat, size: nat, hdr: Bytes): (Dev, bool)
    requires o in v.files
  {
    var (h, ok) := PutHeader(v, o, true, hdr, true);
    if !ok || o !in h.files then (h, false) else PutHeader(SetSize(h, o, size, size), o, false, hdr, true)
  }

  lemma ExtendInv(v: Dev, o: nat, size: nat, hdr: Bytes)
    requires FlashLog.Inv(v, {}, Nothing) && o in v.files && size > v.files[o].size == v.files[o].end
    ensures FlashLog.Inv(Extend(v, o, size, hdr).0, {}, Nothing)
  {
    hide FlashLog.Inv, PutHeader, SetSize;
    var (h, ok) := PutHeader(v, o, true, hdr, true);
    HoleHeaderInv(v, o, hdr);
    if ok {
      PutHeaderShape(v, o, true, hdr, true);
      SetSizeShape(h, o, size, size);
      SetSizeInv(h, o, size, size, Opening(o));
      GrowHeaderInv(SetSize(h, o, size, size), o, hdr, Opening(o));
    }
  }

  /** The header with the new size ends the extension, written or not. */
  lemma GrowHeaderInv(v: Dev, o: nat, hdr: Bytes, pend: Pending)
    requires FlashLog.Inv(v, {}, pend) && o in v.files && (pend == Opening(o) || pend == Nothing)
    ensures FlashLog.Inv(PutHeader(v, o, false, hdr, true).0, {}, Nothing)
  {
    hide FlashLog.Inv, PutHeader;
    PutHeaderInv(v, o, false, hdr, true, pend, pend);
    if pend.Opening? { OpeningEnds(PutHeader(v, o, false, hdr, true).0, o); }
  }

  // ----- truncation -----

  /** Number of chunks that hold `size` bytes. */
  function ChunksIn(d: nat, size: nat): (k: nat)
    requires d > 0
    ensures size > 0 ==> k >= 1 && Base(d, k) < size <= Base(d, k) + d
  {
    if size == 0 then 0 else if size <= d then 1 else 1 + ChunksIn(d, size - d)
  }

  lemma LastChunk(d: nat, size: nat, c: nat)
    requires d > 0 && c >= 1 && Base(d, c) < size
    ensures c <= ChunksIn(d, size)
  {
    if c > ChunksIn(d, size) { BaseStep(d, ChunksIn(d, size), c); }
  }

  /** The loop of yaffs_prune_chunks, downwards from chunk `i`. */
  function Prune(v: Dev, o: nat, i: nat, size: nat): Dev
    requires o in v.files
    decreases i
  {
    if i == 0 || Base(v.chunkBytes, i) < size then v
    else
      var w := if i in v.files[o].chunks then Delete(Unlink(v, o, i), v.files[o].chunks[i]) else v;
      if o in w.files && w.chunkBytes == v.chunkBytes then Prune(w, o, i - 1, size) else w
  }

  lemma PruneStep(v: Dev, o: nat, i: nat, size: nat)
    requires FlashLog.Inv(v, {}, Cutting(o, size)) && o in v.files
    requires size <= Base(v.chunkBytes, i) && i in v.files[o].chunks
    ensures var w := Delete(Unlink(v, o, i), v.files[o].chunks[i]);
      && FlashLog.Inv(w, {}, Cutting(o, size)) && o in w.files && w.chunkBytes == v.chunkBytes
      && w.files[o] == v.files[o].(chunks := v.files[o].chunks - {i})
  {
    hide FlashLog.Inv;
    UnlinkInv(v, o, i, size);
    DeleteInv(Unlink(v, o, i), v.files[o].chunks[i], Cutting(o, size));
  }

  lemma {:induction false} PruneInv(v: Dev, o: nat, i: nat, size: nat)
    requires FlashLog.Inv(v, {}, Cutting(o, size)) && o in v.files
    requires forall c :: c in v.files[o].chunks && c > i ==> Base(v.chunkBytes, c) < size
    requires forall c :: c in v.files[o].chunks ==> c >= 1
    ensures var w := Prune(v, o, i, size);
      && FlashLog.Inv(w, {}, Cutting(o, size)) && o in w.files && w.chunkBytes == v.chunkBytes
      && SameSize(v, w, o)
      && (forall c :: c in w.files[o].chunks ==> Base(v.chunkBytes, c) < size)
    decreases i
  {
    hide FlashLog.Inv, Delete, Unlink;
    if i == 0 {
    } else if Base(v.chunkBytes, i) < size {
      forall c | c in v.files[o].chunks ensures Base(v.chunkBytes, c) < size {
        if c < i { BaseStep(v.chunkBytes, c, i); }
      }
    } else {
      if i in v.files[o].chunks {
        PruneStep(v, o, i, size);
        PruneInv(Delete(Unlink(v, o, i), v.files[o].chunks[i]), o, i - 1, size);
      } else {
        PruneInv(v, o, i - 1, size);
      }
    }
  }

  /** The last chunk of a file of `size` bytes ends within it. */
  predicate Ragged(d: nat, size: nat)
    requires d > 0
  {
    size > 0 && size < Base(d, ChunksIn(d, size)) + d
  }

  /** The chunk the new end falls into, zero padded. */
  function CutTail(v: Dev, o: nat, size: nat, tail: Bytes): (Dev, bool)
    requires o in v.files && v.chunkBytes > 0
  {
    var k := ChunksIn(v.chunkBytes, size);
    if Ragged(v.chunkBytes, size)
    then PutChunk(v, o, k, size - Base(v.chunkBytes, k), tail, v.files[o].end, true) else (v, true)
  }

  /** yaffs_resize_file downwards: the size is set before the header that ends it is written. */
  function Truncate(v: Dev, o: nat, size: nat, tail: Bytes, hdr: Bytes): (Dev, bool)
    requires o in v.files && v.chunkBytes > 0
  {
    var w := Prune(v, o, ChunksIn(v.chunkBytes, v.files[o].size), size);
    if o !in w.files || w.chunkBytes == 0 then (w, false)
    else
      var (x, ok) := CutTail(w, o, size, tail);
      if !ok || o !in x.files then (x, false) else PutHeader(SetSize(x, o, size, size), o, false, hdr, true)
  }

  lemma PendingWeaker(v: Dev, o: nat, size: nat)
    requires FlashLog.Inv(v, {}, Nothing)
    ensures FlashLog.Inv(v, {}, Cutting(o, size))
  {
    hide Pages, FirstPages, Index, Hdrs, Live, Newest, Uncut, BlockTable.Inv;
    SizesPend(v, Nothing, Cutting(o, size));
    forall d | FlashLog.Dead(v, d) && !Excused(v, Cutting(o, size), d) ensures Justified(v, Cutting(o, size), d) {
      assert !Excused(v, Nothing, d) && Justified(v, Nothing, d);
    }
  }

  lemma TruncateFits(x: Dev, o: nat, size: nat)
    requires Index(x) && x.chunkBytes > 0 && o in x.files
    requires forall c :: c in x.files[o].chunks ==> Base(x.chunkBytes, c) < size
    requires Ragged(x.chunkBytes, size) ==>
      var k := ChunksIn(x.chunkBytes, size);
      k in x.files[o].chunks && Body(x, o, k).Some? && Body(x, o, k).value.0 == size - Base(x.chunkBytes, k)
    ensures FitsIn(x, o, size)
  {
    var d, k := x.chunkBytes, ChunksIn(x.chunkBytes, size);
    forall c, a | Mapped(x.files, o, c, a) && IsData(x.flash, a, o, c)
      ensures Base(d, c) + x.flash[a].nBytes <= size
    {
      assert Entry(x, o, c, a);
      LastChunk(d, size, c);
      if c < k { BaseStep(d, c, k); }
    }
  }

  lemma TailGood(v: Dev, o: nat, size: nat, tail: Bytes, pend: Pending)
    requires v.chunkBytes > 0 && o in v.files && size <= v.files[o].end && Ragged(v.chunkBytes, size)
    ensures var k := ChunksIn(v.chunkBytes, size); var n := size - Base(v.chunkBytes, k);
      && n > 0 && GoodWrite(v, Data(o, k, n, 0, tail), v.files[o].end) && NoNewHole(v, o, k, v.files[o].end, pend)
  {
  }

  lemma CutTailInv(v: Dev, o: nat, size: nat, tail: Bytes)
    requires FlashLog.Inv(v, {}, Cutting(o, size)) && v.chunkBytes > 0 && o in v.files && size <= v.files[o].end
    ensures FlashLog.Inv(CutTail(v, o, size, tail).0, {}, Cutting(o, size))
  {
    hide FlashLog.Inv, PutChunk, GoodWrite, NoNewHole, Ragged, Base;
    var k := ChunksIn(v.chunkBytes, size);
    if Ragged(v.chunkBytes, size) {
      TailGood(v, o, size, tail, Cutting(o, size));
      PutChunkInv(v, o, k, size - Base(v.chunkBytes, k), tail, v.files[o].end, true, Cutting(o, size));
    }
  }

  /** Afterwards the chunk the end falls into ends with the file. */
  lemma CutTailShape(v: Dev, o: nat, size: nat, tail: Bytes)
    requires Sound(v) && v.chunkBytes > 0 && o in v.files && CutTail(v, o, size, tail).1
    ensures var x, k := CutTail(v, o, size, tail).0, ChunksIn(v.chunkBytes, size);
      && o in x.files && x.chunkBytes == v.chunkBytes && x.files[o].end == v.files[o].end
      && (forall c :: c in x.files[o].chunks ==> c in v.files[o].chunks || (Ragged(v.chunkBytes, size) && c == k))
      && (Ragged(v.chunkBytes, size) ==>
            k in x.files[o].chunks && Body(x, o, k) == Some((size - Base(v.chunkBytes, k), tail)))
  {
    hide Sound, PutChunk;
    var k := ChunksIn(v.chunkBytes, size);
    if Ragged(v.chunkBytes, size) {
      PutChunkShape(v, o, k, size - Base(v.chunkBytes, k), tail, v.files[o].end, true);
      PutChunkBody(v, o, k, size - Base(v.chunkBytes, k), tail, v.files[o].end, true, o, k);
    }
  }

  lemma PruneStart(v: Dev, o: nat)
    requires Index(v) && v.chunkBytes > 0 && o in v.files
    ensures forall c :: c in v.files[o].chunks ==> 1 <= c <= ChunksIn(v.chunkBytes, v.files[o].end)
  {
    forall c | c in v.files[o].chunks ensures 1 <= c <= ChunksIn(v.chunkBytes, v.files[o].end) {
      assert Mapped(v.files, o, c, v.files[o].chunks[c]) && Entry(v, o, c, v.files[o].chunks[c]);
      LastChunk(v.chunkBytes, v.files[o].end, c);
    }
  }

  lemma PendIndex(v: Dev, pend: Pending)
    requires FlashLog.Inv(v, {}, pend)
    ensures Index(v) && v.chunkBytes > 0
  {
  }

  /** What is mapped fits below the new size: the chunks past it are gone, the last one is rewritten. */
  predicate CutReady(v: Dev, o: nat, size: nat) {
    && v.chunkBytes > 0 && o in v.files && size <= v.files[o].end
    && (forall c :: c in v.files[o].chunks ==> Base(v.chunkBytes, c) < size)
    && (Ragged(v.chunkBytes, size) ==>
          var k := ChunksIn(v.chunkBytes, size);
          k in v.files[o].chunks && Body(v, o, k).Some? && Body(v, o, k).value.0 == size - Base(v.chunkBytes, k))
  }

  lemma CutReadyInv(v: Dev, o: nat, size: nat)
    requires FlashLog.Inv(v, {}, Cutting(o, size)) && CutReady(v, o, size)
    ensures FlashLog.Inv(SetSize(v, o, size, size), {}, Cutting(o, size))
  {
    hide FlashLog.Inv, FitsIn, Index, Body;
    PendIndex(v, Cutting(o, size));
    TruncateFits(v, o, size);
    CutSizeInv(v, o, size);
  }

  /** The header with the new size accounts for every page left behind. */
  lemma SealCutInv(v: Dev, o: nat, hdr: Bytes)
    requires o in v.files && v.files[o].size == v.files[o].end && FlashLog.Inv(v, {}, Cutting(o, v.files[o].size))
    ensures var (w, ok) := PutHeader(v, o, false, hdr, true);
      FlashLog.Inv(w, {}, if ok then Nothing else Cutting(o, v.files[o].size))
  {
    hide FlashLog.Inv, PutHeader;
    PutHeaderInv(v, o, false, hdr, true, Cutting(o, v.files[o].size), Nothing);
  }

  lemma SetSizeShape(v: Dev, o: nat, size: nat, end: nat)
    requires o in v.files
    ensures var w := SetSize(v, o, size, end);
      && o in w.files && w.files[o].size == size && w.files[o].end == end && w.chunkBytes == v.chunkBytes
      && (forall p, e :: Body(w, p, e) == Body(v, p, e)) && (forall p :: HeaderBody(w, p) == HeaderBody(v, p))
  {
  }

  /** The chunks are dropped and the tail rewritten while the truncation is pending. */
  lemma CutDone(v: Dev, o: nat, size: nat, tail: Bytes)
    requires FlashLog.Inv(v, {}, Nothing) && o in v.files && size < v.files[o].size == v.files[o].end
    ensures v.chunkBytes > 0
    ensures var w := Prune(v, o, ChunksIn(v.chunkBytes, v.files[o].size), size);
      && o in w.files && w.chunkBytes == v.chunkBytes && FlashLog.Inv(w, {}, Cutting(o, size))
      && (CutTail(w, o, size, tail).1 ==>
            var x := CutTail(w, o, size, tail).0; FlashLog.Inv(x, {}, Cutting(o, size)) && CutReady(x, o, size))
  {
    hide FlashLog.Inv, Index, Sound, CutTail, Body;
    PendingWeaker(v, o, size);
    PendIndex(v, Nothing);
    PruneStart(v, o);
    PruneInv(v, o, ChunksIn(v.chunkBytes, v.files[o].size), size);
    var w := Prune(v, o, ChunksIn(v.chunkBytes, v.files[o].size), size);
    if CutTail(w, o, size, tail).1 {
      InvSound(w, {}, Cutting(o, size));
      CutTailInv(w, o, size, tail);
      CutTailShape(w, o, size, tail);
    }
  }

  /** The whole truncation: its header comes after the size is set. */
  lemma TruncateInv(v: Dev, o: nat, size: nat, tail: Bytes, hdr: Bytes)
    requires FlashLog.Inv(v, {}, Nothing) && o in v.files && size < v.files[o].size == v.files[o].end
    requires v.chunkBytes > 0 && Truncate(v, o, size, tail, hdr).1
    ensures FlashLog.Inv(Truncate(v, o, size, tail, hdr).0, {}, Nothing)
  {
    hide FlashLog.Inv, PutHeader, CutTail, Prune, Ragged, SetSize;
    CutDone(v, o, size, tail);
    var x := CutTail(Prune(v, o, ChunksIn(v.chunkBytes, v.files[o].size), size), o, size, tail).0;
    CutReadyInv(x, o, size);
    SetSizeShape(x, o, size, size);
    SealCutInv(SetSize(x, o, size, size), o, hdr);
  }

  // ----- effect of the file operations on the contents -----

  /** What the parts of a write leave at chunk `e`. */
  function Written(parts: seq<Part>, e: nat, before: Option<(nat, Bytes)>): Option<(nat, Bytes)> {
    if parts == [] then before
    else
      var p := parts[|parts| - 1];
      if p.id == e then Some((p.nBytes, p.bytes)) else Written(parts[..|parts| - 1], e, before)
  }

  lemma {:induction false} WrittenFirst(parts: seq<Part>, e: nat, before: Option<(nat, Bytes)>)
    requires parts != []
    ensures var p := parts[0];
      Written(parts, e, before) == Written(parts[1..], e, if p.id == e then Some((p.nBytes, p.bytes)) else before)
  {
    if |parts| > 1 {
      var k := |parts| - 1;
      assert parts[1..][..k - 1] == parts[..k][1..] && parts[1..][k - 1] == parts[k];
      WrittenFirst(parts[..k], e, before);
    }
  }

  /** Where the parts of a write end. */
  function LastEnd(d: nat, parts: seq<Part>): nat {
    if parts == [] then 0 else var p := parts[|parts| - 1]; Base(d, p.id) + p.nBytes
  }

  lemma {:induction false} WritePartsBody(v: Dev, o: nat, parts: seq<Part>, pend: Pending, p: nat, e: nat)
    requires FlashLog.Inv(v, {}, pend) && (pend == Nothing || pend == Opening(o)) && o in v.files
    requires Consecutive(v.chunkBytes, parts) && WriteParts(v, o, parts).1
    requires parts != [] ==> Base(v.chunkBytes, parts[0].id) <= v.files[o].end || pend == Opening(o)
    ensures var w := WriteParts(v, o, parts).0;
      && Body(w, p, e) == (if p == o then Written(parts, e, Body(v, p, e)) else Body(v, p, e))
      && o in w.files && w.files[o].size == v.files[o].size
      && w.files[o].end == Max(v.files[o].end, LastEnd(v.chunkBytes, parts))
    decreases |parts|
  {
    hide FlashLog.Inv, PutChunk, Body, Sound, Written;
    if parts != [] {
      var q := parts[0];
      var (w, ok) := PutChunk(v, o, q.id, q.nBytes, q.bytes, EndWith(v, o, q.id, q.nBytes), q.reserveOk);
      WriteChunkInv(v, o, q.id, q.nBytes, q.bytes, q.reserveOk, pend);
      InvSound(v, {}, pend);
      PutChunkShape(v, o, q.id, q.nBytes, q.bytes, EndWith(v, o, q.id, q.nBytes), q.reserveOk);
      PutChunkBody(v, o, q.id, q.nBytes, q.bytes, EndWith(v, o, q.id, q.nBytes), q.reserveOk, p, e);
      WritePartsBody(w, o, parts[1..], Nothing, p, e);
      WrittenFirst(parts, e, Body(v, p, e));
      LastEndRest(v.chunkBytes, parts);
    } else {
      WrittenNone(e, Body(v, p, e));
    }
  }

  lemma WrittenNone(e: nat, before: Option<(nat, Bytes)>)
    ensures Written([], e, before) == before
  {
  }

  /** The first chunk of several ends where the next one starts. */
  lemma LastEndRest(d: nat, parts: seq<Part>)
    requires Consecutive(d, parts) && parts != []
    ensures Max(Base(d, parts[0].id) + parts[0].nBytes, LastEnd(d, parts[1..])) == LastEnd(d, parts)
  {
    if |parts| > 1 { LastAfterFirst(d, parts, |parts| - 1); }
  }

  lemma {:induction false} LastAfterFirst(d: nat, parts: seq<Part>, k: nat)
    requires Consecutive(d, parts) && 0 < k < |parts|
    ensures Base(d, parts[0].id) + d <= Base(d, parts[k].id)
  {
    if k > 1 { LastAfterFirst(d, parts, k - 1); }
    assert parts[k - 1 + 1].id == parts[k - 1].id + 1;
  }

  /** A successful write puts its bytes at the chunks it covers and leaves every other chunk, in every
      file, as it was; the size is the old one or the end of the write, whichever is more. */
  lemma WriteBody(v: Dev, o: nat, offset: nat, parts: seq<Part>, hdr: Bytes, p: nat, e: nat)
    requires FlashLog.Inv(v, {}, Nothing) && o in v.files && v.files[o].size == v.files[o].end
    requires Consecutive(v.chunkBytes, parts) && (parts != [] ==> Base(v.chunkBytes, parts[0].id) <= offset)
    requires Write(v, o, offset, parts, hdr).1
    ensures var w := Write(v, o, offset, parts, hdr).0;
      && Body(w, p, e) == (if p == o then Written(parts, e, Body(v, p, e)) else Body(v, p, e))
      && o in w.files && w.files[o].size == Max(v.files[o].size, LastEnd(v.chunkBytes, parts))
  {
    hide FlashLog.Inv, Sound, PutHeader, WriteParts, Body, Written, Consecutive, LastEnd, SetSize;
    InvSound(v, {}, Nothing);
    var h, pend := v, Nothing;
    if offset > v.files[o].size {
      h, pend := PutHeader(v, o, true, hdr, true).0, Opening(o);
      HoleHeaderInv(v, o, hdr);
      PutHeaderShape(v, o, true, hdr, true);
      PutHeaderBody(v, o, true, hdr, true, p, e);
    }
    WritePartsBody(h, o, parts, pend, p, e);
    var w := WriteParts(h, o, parts).0;
    SetSizeShape(w, o, w.files[o].end, w.files[o].end);
  }

  /** Unlinking one entry leaves the others, none of which names its page. */
  lemma UnlinkRest(v: Dev, o: nat, c: nat, p: nat, e: nat)
    requires Bits(v.t) && Index(v) && Hdrs(v) && o in v.files && c in v.files[o].chunks
    ensures var u, x := Unlink(v, o, c), v.files[o].chunks[c];
      && Bits(u.t) && x in u.t.bits
      && (p in u.files && e in u.files[p].chunks ==>
            u.files[p].chunks[e] in u.t.bits && u.files[p].chunks[e] in u.flash && u.files[p].chunks[e] != x)
      && (p in u.files ==> u.files[p].hdr in u.t.bits && u.files[p].hdr in u.flash && u.files[p].hdr != x)
      && Body(u, p, e) == if p == o && e == c then None else Body(v, p, e)
  {
    var u := Unlink(v, o, c);
    var x := v.files[o].chunks[c];
    assert Mapped(v.files, o, c, x) && Entry(v, o, c, x);
    if p in u.files && e in u.files[p].chunks {
      assert Mapped(v.files, p, e, u.files[p].chunks[e]) && Entry(v, p, e, u.files[p].chunks[e]);
    }
  }

  lemma UnlinkBody(v: Dev, o: nat, c: nat, p: nat, e: nat)
    requires Sound(v) && o in v.files && c in v.files[o].chunks
    ensures var w := Delete(Unlink(v, o, c), v.files[o].chunks[c]);
      Body(w, p, e) == if p == o && e == c then None else Body(v, p, e)
  {
    var u := Unlink(v, o, c);
    var x := v.files[o].chunks[c];
    UnlinkRest(v, o, c, p, e);
    hide Sound, Unlink, Delete;
    DeleteBody(u, x, p, e);
  }

  lemma {:induction false} PruneBody(v: Dev, o: nat, i: nat, size: nat, p: nat, e: nat)
    requires FlashLog.Inv(v, {}, Cutting(o, size)) && o in v.files
    ensures Body(Prune(v, o, i, size), p, e)
         == if p == o && 1 <= e <= i && size <= Base(v.chunkBytes, e) then None else Body(v, p, e)
    decreases i
  {
    hide FlashLog.Inv, Delete, Unlink, Sound;
    if i == 0 {
    } else if Base(v.chunkBytes, i) < size {
      if 1 <= e < i { BaseStep(v.chunkBytes, e, i); }
    } else if i in v.files[o].chunks {
      PruneStep(v, o, i, size);
      InvSound(v, {}, Cutting(o, size));
      UnlinkBody(v, o, i, p, e);
      PruneBody(Delete(Unlink(v, o, i), v.files[o].chunks[i]), o, i - 1, size, p, e);
    } else {
      PruneBody(v, o, i - 1, size, p, e);
    }
  }

  /** A truncation removes exactly the chunks at or past the new size, rewrites the chunk the
      new size falls into, and leaves the rest of this file and all others alone. */
  lemma TruncateBody(v: Dev, o: nat, size: nat, tail: Bytes, hdr: Bytes, p: nat, e: nat)
    requires FlashLog.Inv(v, {}, Nothing) && o in v.files && size < v.files[o].size == v.files[o].end
    requires v.chunkBytes > 0 && Truncate(v, o, size, tail, hdr).1
    ensures var w := Truncate(v, o, size, tail, hdr).0;
      var k := ChunksIn(v.chunkBytes, size);
      && o in w.files && w.files[o].size == size
      && Body(w, p, e) ==
           if p != o then Body(v, p, e)
           else if Ragged(v.chunkBytes, size) && e == k then Some((size - Base(v.chunkBytes, k), tail))
           else if 1 <= e <= ChunksIn(v.chunkBytes, v.files[o].size) && size <= Base(v.chunkBytes, e) then None
           else Body(v, p, e)
  {
    hide FlashLog.Inv, Index, Sound, CutTail, PutHeader, Body, HeaderBody, Prune, Base, ChunksIn, SetSize, Ragged;
    var pend := Cutting(o, size);
    CutDone(v, o, size, tail);
    PendingWeaker(v, o, size);
    PruneBody(v, o, ChunksIn(v.chunkBytes, v.files[o].size), size, p, e);
    var w := Prune(v, o, ChunksIn(v.chunkBytes, v.files[o].size), size);
    InvSound(w, {}, pend);
    CutTailBody(w, o, size, tail, p, e);
    var x := CutTail(w, o, size, tail).0;
    CutReadyInv(x, o, size);
    SetSizeShape(x, o, size, size);
    var y := SetSize(x, o, size, size);
    InvSound(y, {}, pend);
    PutHeaderBody(y, o, false, hdr, true, p, e);
    PutHeaderShape(y, o, false, hdr, true);
  }

  lemma CutTailBody(v: Dev, o: nat, size: nat, tail: Bytes, p: nat, e: nat)
    requires Sound(v) && v.chunkBytes > 0 && o in v.files && CutTail(v, o, size, tail).1
    ensures var x, k := CutTail(v, o, size, tail).0, ChunksIn(v.chunkBytes, size);
      Body(x, p, e) == if Ragged(v.chunkBytes, size) && p == o && e == k
                       then Some((size - Base(v.chunkBytes, k), tail)) else Body(v, p, e)
  {
    hide Sound, PutChunk, Body;
    var k := ChunksIn(v.chunkBytes, size);
    if Ragged(v.chunkBytes, size) {
      PutChunkBody(v, o, k, size - Base(v.chunkBytes, k), tail, v.files[o].end, true, p, e);
    }
  }
}
