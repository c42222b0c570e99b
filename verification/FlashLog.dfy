/** YAFFS2 as a log: tagged pages on flash, files and their chunk maps in RAM, in-place
    operations that only ever append pages and erase whole blocks. */
module FlashLog {
  import opened Basics
  import opened BlockTable

  /** A written page with the tags the scan relies on. Chunk id 0 marks an object header. */
  datatype Page =
    | Data(obj: nat, id: nat, nBytes: nat, seqNumber: nat, bytes: Bytes)
    | Header(obj: nat, size: nat, shrink: bool, seqNumber: nat, bytes: Bytes)

  /** `size` is file_size in RAM. `end` is where the file will end once the write call under way has set
      its size: between calls the two are equal. The chunks in `late` are held by the cache alone. */
  datatype File = File(hdr: Addr, size: nat, end: nat, late: set<nat>, chunks: map<nat, Addr>)

  datatype Dev = Dev(t: Table, flash: map<Addr, Page>, files: map<nat, File>, chunkBytes: nat)

  // ----- relations between pages -----

  /** First byte of the file that data chunk `c` holds: (c - 1) * d. */
  function Base(d: nat, c: nat): nat {
    if c <= 1 then 0 else Base(d, c - 1) + d
  }

  lemma {:induction false} BaseStep(d: nat, c: nat, e: nat)
    requires 1 <= c < e
    ensures Base(d, c) + d <= Base(d, e)
  {
    if c < e - 1 { BaseStep(d, c, e - 1); }
  }

  predicate IsData(f: map<Addr, Page>, a: Addr, o: nat, c: nat) {
    a in f && f[a].Data? && f[a].obj == o && f[a].id == c
  }

  predicate IsHeader(f: map<Addr, Page>, a: Addr, o: nat) {
    a in f && f[a].Header? && f[a].obj == o
  }

  /** Page `a` was written after page `b`. */
  predicate Newer(f: map<Addr, Page>, a: Addr, b: Addr) {
    && a in f && b in f
    && (f[a].seqNumber > f[b].seqNumber || (f[a].seqNumber == f[b].seqNumber && a.page > b.page))
  }

  predicate Mapped(files: map<nat, File>, o: nat, c: nat, a: Addr) {
    o in files && c in files[o].chunks && files[o].chunks[c] == a
  }

  // ----- the invariant -----

  ghost predicate Pages(v: Dev) {
    forall a :: a in v.flash ==>
      && a.block < |v.t.blocks| && a.page < v.t.cpb
      && MayHoldData(v.t.blocks[a.block].state)
      && v.flash[a].seqNumber == v.t.blocks[a.block].seqNumber
      && (v.t.allocBlock == Some(a.block) ==> a.page < v.t.allocPage)
      && v.flash[a].obj in v.files
      && (v.flash[a].Data? ==> v.flash[a].id >= 1)
  }

  /** A block is written from its first page on. */
  ghost predicate FirstPages(v: Dev) {
    && (forall a :: a in v.flash ==> FirstPage(a) in v.flash)
    && (v.t.allocBlock.Some? && v.t.allocPage > 0 ==> Addr(v.t.allocBlock.value, 0) in v.flash)
  }

  function FirstPage(a: Addr): Addr { Addr(a.block, 0) }

  /** Every mapped chunk carries the tags of the file and position that map it. */
  ghost predicate Index(v: Dev) {
    forall o, c, a :: Mapped(v.files, o, c, a) ==> Entry(v, o, c, a)
  }

  predicate Entry(v: Dev, o: nat, c: nat, a: Addr) {
    && c >= 1 && a in v.t.bits && IsData(v.flash, a, o, c) && o in v.files
    && 0 < v.flash[a].nBytes <= v.chunkBytes && Base(v.chunkBytes, c) + v.flash[a].nBytes <= v.files[o].end
  }

  ghost predicate Hdrs(v: Dev) {
    forall o :: o in v.files ==> v.files[o].hdr in v.t.bits && IsHeader(v.flash, v.files[o].hdr, o)
  }

  predicate InUse(v: Dev, a: Addr) {
    && a in v.flash && v.flash[a].obj in v.files
    && match v.flash[a]
       case Data(o, c, _, _, _) => Mapped(v.files, o, c, a)
       case Header(o, _, _, _, _) => v.files[o].hdr == a
  }

  /** Every set bit marks a page in use, except those in `limbo`. */
  ghost predicate Live(v: Dev, limbo: set<Addr>) {
    && v.t.soft == {}
    && (forall a :: a in v.t.bits && a !in limbo ==> InUse(v, a))
    && (forall a :: a in limbo ==> a in v.t.bits && a in v.flash && !InUse(v, a))
  }

  ghost predicate Newest(v: Dev) {
    && (forall o, c, a, b :: Mapped(v.files, o, c, a) && IsData(v.flash, b, o, c) && b != a ==> Newer(v.flash, a, b))
    && (forall o, b ::
          o in v.files && IsHeader(v.flash, b, o) && b != v.files[o].hdr
          ==> Newer(v.flash, v.files[o].hdr, b))
  }

  /** No size recorded or reached by later data lies past the end, except in a file being cut. */
  ghost predicate Sizes(v: Dev, pend: Pending) {
    && (forall o :: o in v.files ==> HeaderWithin(v, pend, o))
    && (forall d :: AfterHeader(v, d) && !Cuts(pend, v.flash[d].obj) ==> WithinEnd(v, d))
  }

  predicate HeaderWithin(v: Dev, pend: Pending, o: nat) {
    && o in v.files && v.files[o].size <= v.files[o].end
    && (!Cuts(pend, o) ==> IsHeader(v.flash, v.files[o].hdr, o) && v.flash[v.files[o].hdr].size <= v.files[o].end)
  }

  predicate AfterHeader(v: Dev, d: Addr) {
    && d in v.flash && v.flash[d].Data? && v.flash[d].obj in v.files
    && Newer(v.flash, d, v.files[v.flash[d].obj].hdr)
  }

  predicate WithinEnd(v: Dev, d: Addr) {
    && d in v.flash && v.flash[d].Data? && v.flash[d].obj in v.files
    && Base(v.chunkBytes, v.flash[d].id) + v.flash[d].nBytes <= v.files[v.flash[d].obj].end
  }

  predicate Shrinks(v: Dev, o: nat, h: Addr) { IsHeader(v.flash, h, o) && v.flash[h].shrink }

  /** No shrink header written after a mapped chunk cuts it off. */
  ghost predicate Uncut(v: Dev) {
    forall o, c, a, h ::
      Mapped(v.files, o, c, a) && Shrinks(v, o, h) && Newer(v.flash, h, a) ==> Base(v.chunkBytes, c) < v.flash[h].size
  }

  /** A shrink header that cuts `d` and cannot be erased before `d` is. */
  predicate Shields(v: Dev, p: Addr, d: Addr) {
    && d in v.flash && v.flash[d].Data?
    && IsHeader(v.flash, p, v.flash[d].obj) && v.flash[p].shrink && Newer(v.flash, p, d)
    && v.flash[p].size <= Base(v.chunkBytes, v.flash[d].id)
    && p.block < |v.t.blocks| && (v.t.blocks[p.block].hasShrinkHdr || p.block == d.block)
  }

  /** The file maps a (by `Newest`, younger) page at the same position. */
  predicate Superseded(v: Dev, d: Addr) {
    && d in v.flash && v.flash[d].Data? && v.flash[d].obj in v.files
    && v.flash[d].id in v.files[v.flash[d].obj].chunks
  }

  predicate PastEnd(v: Dev, d: Addr) {
    && d in v.flash && v.flash[d].Data? && v.flash[d].obj in v.files
    && v.files[v.flash[d].obj].end <= Base(v.chunkBytes, v.flash[d].id)
    && Newer(v.flash, v.files[v.flash[d].obj].hdr, d)
  }

  /** A resize in progress. Chunks of `obj` at or past byte `size` are on their way out, or `obj` is
      about to grow past its end: no dead page may then count on lying beyond it. */
  datatype Pending = Nothing | Cutting(obj: nat, size: nat) | Opening(obj: nat)

  predicate Cuts(pend: Pending, o: nat) { pend.Cutting? && pend.obj == o }

  predicate Opens(pend: Pending, o: nat) { pend.Opening? && pend.obj == o }

  /** The bytes at this position are in the cache, waiting to be written. */
  predicate Late(v: Dev, d: Addr) {
    && d in v.flash && v.flash[d].Data? && v.flash[d].obj in v.files
    && v.flash[d].id in v.files[v.flash[d].obj].late
  }

  ghost predicate Justified(v: Dev, pend: Pending, d: Addr) {
    || Superseded(v, d) || Late(v, d)
    || (PastEnd(v, d) && !Opens(pend, v.flash[d].obj))
    || exists p :: Shields(v, p, d)
  }

  predicate Excused(v: Dev, pend: Pending, d: Addr) {
    pend.Cutting? && d in v.flash && v.flash[d].Data? && v.flash[d].obj == pend.obj
    && pend.size <= Base(v.chunkBytes, v.flash[d].id)
  }

  predicate Dead(v: Dev, d: Addr) {
    d in v.flash && v.flash[d].Data? && !Mapped(v.files, v.flash[d].obj, v.flash[d].id, d)
  }

  /** Every data page on flash that no file maps will be recognised as dead by a scan. */
  ghost predicate DeadKnown(v: Dev, pend: Pending) {
    forall d :: Dead(v, d) && !Excused(v, pend, d) ==> Justified(v, pend, d)
  }

  ghost predicate Inv(v: Dev, limbo: set<Addr>, pend: Pending) {
    && v.chunkBytes > 0 && BlockTable.Inv(v.t)
    && Pages(v) && FirstPages(v) && Index(v) && Hdrs(v) && Live(v, limbo)
    && Newest(v) && Uncut(v) && DeadKnown(v, pend) && Sizes(v, pend)
  }

  // ----- allocating a page -----

  /** What yaffs_alloc_chunk guarantees about the page it hands out. */
  ghost predicate Allocated(t: Table, u: Table, a: Addr) {
    && |u.blocks| == |t.blocks| && u.cpb == t.cpb && u.soft == t.soft
    && a.block < |t.blocks| && a.page < t.cpb
    && a !in t.bits && u.bits == t.bits + {a}
    && MayHoldData(u.blocks[a.block].state)
    && u.blocks[a.block].seqNumber == u.seqNumber
    && (forall b :: 0 <= b < |t.blocks| ==> u.blocks[b].hasShrinkHdr == t.blocks[b].hasShrinkHdr)
    && (forall b :: 0 <= b < |t.blocks| && b != a.block ==>
          && u.blocks[b] == t.blocks[b]
          && (MayHoldData(u.blocks[b].state) ==> u.blocks[b].seqNumber < u.seqNumber))
    && (MayHoldData(t.blocks[a.block].state) ==>
          t.allocBlock == Some(a.block) && a.page == t.allocPage
          && t.blocks[a.block].seqNumber == u.seqNumber)
    && (!MayHoldData(t.blocks[a.block].state) ==> a.page == 0)
    && (t.allocBlock.Some? ==> t.allocBlock == Some(a.block) && a.page == t.allocPage)
    && (u.allocBlock.Some? ==> u.allocBlock == Some(a.block) && u.allocPage == a.page + 1)
  }

  lemma TakeBlockFacts(t: Table)
    requires BlockTable.Inv(t) && t.allocBlock.None? && TakeBlock(t).allocBlock.Some?
    ensures var u := TakeBlock(t); var j := u.allocBlock.value;
      && |u.blocks| == |t.blocks| && j < |t.blocks| && t.blocks[j].state == Empty
      && u.bits == t.bits && u.cpb == t.cpb && u.soft == t.soft && u.allocPage == 0
      && u.seqNumber == t.seqNumber + 1
      && u.blocks == t.blocks[j := t.blocks[j].(state := Allocating, seqNumber := u.seqNumber)]
  {
  }

  /** Allocation from a block that was just taken is allocation from the original table. */
  lemma AllocatedThrough(t: Table, s: Table, u: Table, a: Addr)
    requires SeqNumbers(t) && s.allocBlock == Some(a.block) && Allocated(s, u, a)
    requires |s.blocks| == |t.blocks| && s.bits == t.bits && s.cpb == t.cpb && s.soft == t.soft
    requires t.blocks[a.block].state == Empty && t.allocBlock.None? && a.page == 0
    requires s.blocks == t.blocks[a.block := s.blocks[a.block]]
    requires s.blocks[a.block].hasShrinkHdr == t.blocks[a.block].hasShrinkHdr
    ensures Allocated(t, u, a)
  {
  }

  lemma AllocFacts(t: Table, reserveOk: bool)
    requires BlockTable.Inv(t) && AllocChunk(t, reserveOk).1.Some?
    ensures Allocated(t, AllocChunk(t, reserveOk).0, AllocChunk(t, reserveOk).1.value)
  {
    if t.allocBlock.None? {
      TakeBlockFacts(t);
      assert BlockTable.Inv(TakeBlock(t)) by { TakeBlockInv(t); }
      TakePageFacts(TakeBlock(t));
      AllocatedThrough(t, TakeBlock(t), TakePage(TakeBlock(t)).0, AllocChunk(t, reserveOk).1.value);
    } else {
      TakePageFacts(t);
    }
  }

  lemma TakePageFacts(t: Table)
    requires BlockTable.Inv(t) && t.allocBlock.Some?
    ensures TakePage(t).1 == Some(Addr(t.allocBlock.value, t.allocPage))
    ensures Allocated(t, TakePage(t).0, Addr(t.allocBlock.value, t.allocPage))
  {
  }

  /** The page just written is newer than everything else on flash. */
  lemma AllocIsNewest(v: Dev, u: Table, a: Addr, p: Page)
    requires Pages(v) && Allocated(v.t, u, a) && p.seqNumber == u.seqNumber
    ensures a !in v.flash
    ensures forall b :: b in v.flash ==> Newer(v.flash[a := p], a, b)
  {
  }

  // ----- linking a freshly written data page into its file -----

  function LinkData(v: Dev, u: Table, a: Addr, p: Page, end: nat): Dev
    requires p.Data? && p.obj in v.files
  {
    var f := v.files[p.obj];
    v.(t := u, flash := v.flash[a := p],
       files := v.files[p.obj := f.(chunks := f.chunks[p.id := a], late := f.late - {p.id}, end := end)])
  }

  /** An end the write moves is the end of its chunk. */
  predicate GoodWrite(v: Dev, p: Page, end: nat) {
    && p.Data? && p.obj in v.files && p.id >= 1 && 0 < p.nBytes <= v.chunkBytes
    && v.files[p.obj].end <= end
    && Base(v.chunkBytes, p.id) + p.nBytes <= end
    && (end > v.files[p.obj].end ==> end == Base(v.chunkBytes, p.id) + p.nBytes)
  }

  /** A hole opens below the new end only in a file prepared for it. */
  predicate NoNewHole(v: Dev, o: nat, c: nat, end: nat, pend: Pending) {
    && o in v.files
    && (end == v.files[o].end || Base(v.chunkBytes, c) <= v.files[o].end || pend == Opening(o))
  }

  /** The newest header is a protected shrink header that cuts everything past the end. */
  predicate HoleMarked(v: Dev, o: nat) {
    && o in v.files
    && var h := v.files[o].hdr;
       && IsHeader(v.flash, h, o) && v.flash[h].shrink && v.flash[h].size <= v.files[o].end
       && h.block < |v.t.blocks| && v.t.blocks[h.block].hasShrinkHdr
  }

  /** Behind such a header the file may grow: the header shields what lay past the end. */
  lemma MarkedOpens(v: Dev, o: nat)
    requires Inv(v, {}, Nothing) && HoleMarked(v, o)
    ensures Inv(v, {}, Opening(o))
  {
    hide Pages, FirstPages, Index, Hdrs, Live, Newest, Uncut, BlockTable.Inv;
    SizesPend(v, Nothing, Opening(o));
    forall d | Dead(v, d) ensures Justified(v, Opening(o), d) {
      assert !Excused(v, Nothing, d) && Justified(v, Nothing, d);
      if v.flash[d].obj == o && PastEnd(v, d) { assert Shields(v, v.files[o].hdr, d); }
    }
  }

  lemma SizesPend(v: Dev, pend: Pending, after: Pending)
    requires Sizes(v, pend) && !pend.Cutting?
    ensures Sizes(v, after)
  {
    forall o | o in v.files ensures HeaderWithin(v, after, o) { assert HeaderWithin(v, pend, o); }
  }

  lemma OpeningEnds(v: Dev, o: nat)
    requires Inv(v, {}, Opening(o))
    ensures Inv(v, {}, Nothing)
  {
    hide Pages, FirstPages, Index, Hdrs, Live, Newest, Uncut, BlockTable.Inv;
    SizesPend(v, Opening(o), Nothing);
    forall d | Dead(v, d) ensures Justified(v, Nothing, d) {
      assert !Excused(v, Opening(o), d) && Justified(v, Opening(o), d);
    }
  }

  function Displaced(v: Dev, o: nat, c: nat): set<Addr> {
    if o in v.files && c in v.files[o].chunks then {v.files[o].chunks[c]} else {}
  }

  lemma LinkPages(v: Dev, u: Table, a: Addr, p: Page, end: nat)
    requires Pages(v) && p.Data? && p.obj in v.files && p.id >= 1
    requires Allocated(v.t, u, a) && p.seqNumber == u.seqNumber
    ensures Pages(LinkData(v, u, a, p, end))
  {
  }

  lemma LinkFirstPages(v: Dev, u: Table, a: Addr, p: Page, end: nat)
    requires FirstPages(v) && Allocated(v.t, u, a) && p.Data? && p.obj in v.files
    ensures FirstPages(LinkData(v, u, a, p, end))
  {
  }

  lemma LinkIndex(v: Dev, u: Table, a: Addr, p: Page, end: nat)
    requires Index(v) && a !in v.flash && u.bits == v.t.bits + {a} && GoodWrite(v, p, end)
    ensures Index(LinkData(v, u, a, p, end))
  {
    var w := LinkData(v, u, a, p, end);
    forall o, c, b | Mapped(w.files, o, c, b) ensures Entry(w, o, c, b) {
      if o != p.obj || c != p.id { assert Mapped(v.files, o, c, b); }
    }
  }

  lemma LinkHdrs(v: Dev, u: Table, a: Addr, p: Page, end: nat)
    requires Hdrs(v) && a !in v.flash && u.bits == v.t.bits + {a} && p.Data? && p.obj in v.files
    ensures Hdrs(LinkData(v, u, a, p, end))
  {
  }

  lemma LinkLive(v: Dev, u: Table, a: Addr, p: Page, end: nat)
    requires Index(v) && Live(v, {}) && a !in v.flash && u.bits == v.t.bits + {a} && u.soft == v.t.soft
    requires p.Data? && p.obj in v.files
    ensures Live(LinkData(v, u, a, p, end), Displaced(v, p.obj, p.id))
  {
    var w := LinkData(v, u, a, p, end);
    forall b | b in w.t.bits && b !in Displaced(v, p.obj, p.id) ensures InUse(w, b) {
      if b != a { assert InUse(v, b); }
    }
    if p.id in v.files[p.obj].chunks { assert Mapped(v.files, p.obj, p.id, v.files[p.obj].chunks[p.id]); }
  }

  lemma LinkNewest(v: Dev, u: Table, a: Addr, p: Page, end: nat)
    requires Newest(v) && Index(v) && Hdrs(v) && a !in v.flash && p.Data? && p.obj in v.files
    requires forall b :: b in v.flash ==> Newer(v.flash[a := p], a, b)
    ensures Newest(LinkData(v, u, a, p, end))
  {
    var w := LinkData(v, u, a, p, end);
    forall o, c, x, b | Mapped(w.files, o, c, x) && IsData(w.flash, b, o, c) && b != x
      ensures Newer(w.flash, x, b)
    {
      if o != p.obj || c != p.id { assert Mapped(v.files, o, c, x) && IsData(v.flash, b, o, c); }
    }
    forall o, b | o in w.files && IsHeader(w.flash, b, o) && b != w.files[o].hdr
      ensures Newer(w.flash, w.files[o].hdr, b)
    {
      assert IsHeader(v.flash, b, o) && o in v.files;
    }
  }

  lemma LinkUncut(v: Dev, u: Table, a: Addr, p: Page, end: nat)
    requires Uncut(v) && Index(v) && a !in v.flash && p.Data? && p.obj in v.files
    requires forall b :: b in v.flash ==> Newer(v.flash[a := p], a, b)
    ensures Uncut(LinkData(v, u, a, p, end))
  {
    var w := LinkData(v, u, a, p, end);
    forall o, c, x, h | Mapped(w.files, o, c, x) && Shrinks(w, o, h) && Newer(w.flash, h, x)
      ensures Base(w.chunkBytes, c) < w.flash[h].size
    {
      assert Shrinks(v, o, h) && Newer(w.flash, a, h);
      if o != p.obj || c != p.id {
        assert Mapped(v.files, o, c, x) && Entry(v, o, c, x) && Newer(v.flash, h, x);
      }
    }
  }

  /** A dead page keeps its justification, or is superseded by the page just written. */
  lemma LinkJustified(v: Dev, u: Table, a: Addr, p: Page, end: nat, pend: Pending, d: Addr)
    requires a !in v.flash && d in v.flash && v.flash[d].Data? && v.flash[d].id >= 1 && Justified(v, pend, d)
    requires Allocated(v.t, u, a) && GoodWrite(v, p, end) && NoNewHole(v, p.obj, p.id, end, pend)
    requires forall b :: b in v.flash ==> Newer(v.flash[a := p], a, b)
    ensures Justified(LinkData(v, u, a, p, end), pend, d)
  {
    var w := LinkData(v, u, a, p, end);
    var o, c := v.flash[d].obj, v.flash[d].id;
    if Superseded(v, d) || (o == p.obj && c == p.id) {
      assert Superseded(w, d);
    } else if Late(v, d) {
      assert Late(w, d);
    } else if PastEnd(v, d) && pend != Opening(o) {
      if w.files[o].end > Base(v.chunkBytes, c) { OwnPosition(v, o, p.id, p.nBytes, end, pend, c); }
      assert PastEnd(w, d);
    } else {
      var q :| Shields(v, q, d);
      assert Shields(w, q, d);
    }
  }

  /** The only position a contiguous write moves inside the file is its own. */
  lemma OwnPosition(v: Dev, o: nat, id: nat, n: nat, end: nat, pend: Pending, c: nat)
    requires NoNewHole(v, o, id, end, pend) && n <= v.chunkBytes && id >= 1 && 1 <= c != id
    requires v.files[o].end <= Base(v.chunkBytes, c) < end == Base(v.chunkBytes, id) + n
    ensures pend == Opening(o)
  {
    if c < id { BaseStep(v.chunkBytes, c, id); }
    if c > id { BaseStep(v.chunkBytes, id, c); }
  }

  lemma LinkDeadKnown(v: Dev, u: Table, a: Addr, p: Page, end: nat, pend: Pending)
    requires Pages(v) && Index(v) && Newest(v) && DeadKnown(v, pend) && a !in v.flash
    requires Allocated(v.t, u, a) && GoodWrite(v, p, end) && NoNewHole(v, p.obj, p.id, end, pend)
    requires forall b :: b in v.flash ==> Newer(v.flash[a := p], a, b)
    ensures DeadKnown(LinkData(v, u, a, p, end), pend)
  {
    var w := LinkData(v, u, a, p, end);
    forall d | Dead(w, d) && !Excused(w, pend, d) ensures Justified(w, pend, d) {
      assert d != a;
      if Dead(v, d) {
        assert !Excused(v, pend, d);
        LinkJustified(v, u, a, p, end, pend, d);
      } else {
        assert Superseded(w, d);
      }
    }
  }

  lemma LinkSizes(v: Dev, u: Table, a: Addr, p: Page, end: nat, pend: Pending)
    requires Hdrs(v) && Sizes(v, pend) && a !in v.flash && GoodWrite(v, p, end)
    ensures Sizes(LinkData(v, u, a, p, end), pend)
  {
    var w := LinkData(v, u, a, p, end);
    forall o | o in w.files ensures HeaderWithin(w, pend, o) { assert HeaderWithin(v, pend, o); }
    forall d | AfterHeader(w, d) && !Cuts(pend, w.flash[d].obj) ensures WithinEnd(w, d) {
      if d != a { assert AfterHeader(v, d) && WithinEnd(v, d); }
    }
  }

  lemma LinkInv(v: Dev, u: Table, a: Addr, p: Page, end: nat, pend: Pending)
    requires Inv(v, {}, pend) && GoodWrite(v, p, end) && NoNewHole(v, p.obj, p.id, end, pend)
    requires Allocated(v.t, u, a) && p.seqNumber == u.seqNumber && BlockTable.Inv(u)
    ensures Inv(LinkData(v, u, a, p, end), Displaced(v, p.obj, p.id), pend)
  {
    assert p.Data? && p.obj in v.files && p.id >= 1;
    assert u.bits == v.t.bits + {a} && u.soft == v.t.soft;
    hide Pages, FirstPages, Index, Hdrs, Live, Newest, Uncut, DeadKnown, Sizes;
    hide GoodWrite, NoNewHole, Allocated, BlockTable.Inv;
    AllocIsNewest(v, u, a, p);
    LinkPages(v, u, a, p, end);
    LinkFirstPages(v, u, a, p, end);
    LinkIndex(v, u, a, p, end);
    LinkHdrs(v, u, a, p, end);
    LinkLive(v, u, a, p, end);
    LinkNewest(v, u, a, p, end);
    LinkUncut(v, u, a, p, end);
    LinkDeadKnown(v, u, a, p, end, pend);
    LinkSizes(v, u, a, p, end, pend);
  }

  // ----- sizes that change in RAM alone -----

  function SetSize(v: Dev, o: nat, size: nat, end: nat): Dev
    requires o in v.files
  {
    v.(files := v.files[o := v.files[o].(size := size, end := end)])
  }

  /** The bytes of chunk `c` up to `end` go to the cache. */
  function Hold(v: Dev, o: nat, c: nat, end: nat): Dev
    requires o in v.files
  {
    var f := v.files[o];
    v.(files := v.files[o := f.(end := end, late := if c in f.chunks then f.late else f.late + {c})])
  }

  /** `w` differs from `v` in what RAM says of the sizes and late chunks of file `o`. */
  ghost predicate SameButSizes(v: Dev, w: Dev, o: nat) {
    && w.t == v.t && w.flash == v.flash && w.chunkBytes == v.chunkBytes && w.files.Keys == v.files.Keys
    && o in v.files && (forall p :: p in v.files && p != o ==> w.files[p] == v.files[p])
    && w.files[o].hdr == v.files[o].hdr && w.files[o].chunks == v.files[o].chunks
    && w.files[o].size <= w.files[o].end && v.files[o].late <= w.files[o].late
  }

  lemma ResizedMaps(v: Dev, w: Dev, o: nat)
    requires SameButSizes(v, w, o)
    requires Pages(v) && FirstPages(v) && Hdrs(v) && Live(v, {})
    ensures Pages(w) && FirstPages(w) && Hdrs(w) && Live(w, {})
  {
    forall a | a in w.t.bits ensures InUse(w, a) { assert InUse(v, a); }
  }

  lemma ResizedOrder(v: Dev, w: Dev, o: nat)
    requires SameButSizes(v, w, o) && Newest(v) && Uncut(v)
    ensures Newest(w) && Uncut(w)
  {
    forall p, c, x, b | Mapped(w.files, p, c, x) && IsData(w.flash, b, p, c) && b != x
      ensures Newer(w.flash, x, b) { assert Mapped(v.files, p, c, x); }
    forall p, b | p in w.files && IsHeader(w.flash, b, p) && b != w.files[p].hdr
      ensures Newer(w.flash, w.files[p].hdr, b) { assert IsHeader(v.flash, b, p); }
    forall p, c, x, h | Mapped(w.files, p, c, x) && Shrinks(w, p, h) && Newer(w.flash, h, x)
      ensures Base(w.chunkBytes, c) < w.flash[h].size { assert Mapped(v.files, p, c, x) && Shrinks(v, p, h); }
  }

  lemma RaisedIndex(v: Dev, w: Dev, o: nat, pend: Pending)
    requires SameButSizes(v, w, o) && Index(v) && Sizes(v, pend) && v.files[o].end <= w.files[o].end
    ensures Index(w) && Sizes(w, pend)
  {
    forall p, c, a | Mapped(w.files, p, c, a) ensures Entry(w, p, c, a) {
      assert Mapped(v.files, p, c, a) && Entry(v, p, c, a);
    }
    forall p | p in w.files ensures HeaderWithin(w, pend, p) { assert HeaderWithin(v, pend, p); }
    forall d | AfterHeader(w, d) && !Cuts(pend, w.flash[d].obj) ensures WithinEnd(w, d) {
      assert AfterHeader(v, d) && WithinEnd(v, d);
    }
  }

  /** No dead page comes to lie inside the file without being known otherwise. */
  ghost predicate NoneRevived(v: Dev, w: Dev, o: nat, pend: Pending) {
    forall d :: PastEnd(v, d) && v.flash[d].obj == o && !Opens(pend, o) ==>
        Late(w, d) || Superseded(w, d) || PastEnd(w, d)
  }

  lemma RaisedDead(v: Dev, w: Dev, o: nat, pend: Pending)
    requires SameButSizes(v, w, o) && DeadKnown(v, pend) && NoneRevived(v, w, o, pend)
    ensures DeadKnown(w, pend)
  {
    forall d | Dead(w, d) && !Excused(w, pend, d) ensures Justified(w, pend, d) {
      assert Dead(v, d) && !Excused(v, pend, d) && Justified(v, pend, d);
      if Superseded(v, d) {
        assert Superseded(w, d);
      } else if Late(v, d) {
        assert Late(w, d);
      } else if PastEnd(v, d) && !Opens(pend, v.flash[d].obj) {
        if v.flash[d].obj != o { assert PastEnd(w, d); }
      } else {
        var q :| Shields(v, q, d);
        assert Shields(w, q, d);
      }
    }
  }

  lemma RaisedInv(v: Dev, w: Dev, o: nat, pend: Pending)
    requires Inv(v, {}, pend) && SameButSizes(v, w, o) && v.files[o].end <= w.files[o].end
    requires NoneRevived(v, w, o, pend)
    ensures Inv(w, {}, pend)
  {
    assert w.t == v.t && w.chunkBytes == v.chunkBytes;
    hide Pages, FirstPages, Index, Hdrs, Live, Newest, Uncut, DeadKnown, Sizes, SameButSizes, BlockTable.Inv;
    hide NoneRevived;
    ResizedMaps(v, w, o);
    ResizedOrder(v, w, o);
    RaisedIndex(v, w, o, pend);
    RaisedDead(v, w, o, pend);
  }

  /** The size is set to the end reached, or raised in a file that is open to grow. */
  lemma SetSizeInv(v: Dev, o: nat, size: nat, end: nat, pend: Pending)
    requires Inv(v, {}, pend) && o in v.files && size <= end
    requires end == v.files[o].end || (end > v.files[o].end && pend == Opening(o))
    ensures Inv(SetSize(v, o, size, end), {}, pend)
  {
    hide Inv;
    var w := SetSize(v, o, size, end);
    forall d | PastEnd(v, d) && v.flash[d].obj == o && !Opens(pend, o) ensures PastEnd(w, d) { }
    RaisedInv(v, w, o, pend);
  }

  lemma HoldRevives(v: Dev, o: nat, c: nat, n: nat, end: nat, pend: Pending)
    requires Pages(v) && GoodWrite(v, Data(o, c, n, 0, []), end) && NoNewHole(v, o, c, end, pend)
    ensures NoneRevived(v, Hold(v, o, c, end), o, pend)
  {
    var w := Hold(v, o, c, end);
    forall d | PastEnd(v, d) && v.flash[d].obj == o && !Opens(pend, o)
      ensures Late(w, d) || Superseded(w, d) || PastEnd(w, d)
    {
      if v.flash[d].id != c && end > Base(v.chunkBytes, v.flash[d].id) {
        OwnPosition(v, o, c, n, end, pend, v.flash[d].id);
      }
    }
  }

  lemma EndCovers(v: Dev, o: nat, pend: Pending)
    requires Inv(v, {}, pend) && o in v.files
    ensures Pages(v) && v.files[o].size <= v.files[o].end && v.chunkBytes > 0
  {
    hide BlockTable.Inv, Pages, FirstPages, Index, Hdrs, Live, Newest, Uncut, DeadKnown;
    assert HeaderWithin(v, pend, o);
  }

  lemma HoldInv(v: Dev, o: nat, c: nat, n: nat, end: nat, pend: Pending)
    requires Inv(v, {}, pend) && GoodWrite(v, Data(o, c, n, 0, []), end) && NoNewHole(v, o, c, end, pend)
    ensures Inv(Hold(v, o, c, end), {}, pend)
  {
    hide Inv, Pages, NoneRevived, NoNewHole;
    EndCovers(v, o, pend);
    HoldRevives(v, o, c, n, end, pend);
    RaisedInv(v, Hold(v, o, c, end), o, pend);
  }

  ghost predicate FitsIn(v: Dev, o: nat, size: nat) {
    forall c, a :: Mapped(v.files, o, c, a) && IsData(v.flash, a, o, c) ==>
      Base(v.chunkBytes, c) + v.flash[a].nBytes <= size
  }

  lemma CutIndex(v: Dev, o: nat, size: nat)
    requires Index(v) && Sizes(v, Cutting(o, size)) && o in v.files && FitsIn(v, o, size)
    ensures Index(SetSize(v, o, size, size)) && Sizes(SetSize(v, o, size, size), Cutting(o, size))
  {
    var w, pend := SetSize(v, o, size, size), Cutting(o, size);
    forall p, c, a | Mapped(w.files, p, c, a) ensures Entry(w, p, c, a) {
      assert Mapped(v.files, p, c, a) && Entry(v, p, c, a);
    }
    forall p | p in w.files ensures HeaderWithin(w, pend, p) { assert HeaderWithin(v, pend, p); }
    forall d | AfterHeader(w, d) && !Cuts(pend, w.flash[d].obj) ensures WithinEnd(w, d) {
      assert AfterHeader(v, d) && WithinEnd(v, d);
    }
  }

  /** The new, smaller size of a file whose chunks past it are gone. */
  lemma CutSizeInv(v: Dev, o: nat, size: nat)
    requires Inv(v, {}, Cutting(o, size)) && o in v.files && size <= v.files[o].end && FitsIn(v, o, size)
    ensures Inv(SetSize(v, o, size, size), {}, Cutting(o, size))
  {
    hide Pages, FirstPages, Index, Hdrs, Live, Newest, Uncut, DeadKnown, Sizes, FitsIn, BlockTable.Inv;
    var w, pend := SetSize(v, o, size, size), Cutting(o, size);
    ResizedMaps(v, w, o);
    ResizedOrder(v, w, o);
    CutIndex(v, o, size);
    forall d | PastEnd(v, d) && v.flash[d].obj == o && !Opens(pend, o) ensures PastEnd(w, d) { }
    RaisedDead(v, w, o, pend);
  }

  // ----- linking a freshly written header -----

  function LinkHeader(v: Dev, u: Table, a: Addr, p: Page): Dev
    requires p.Header?
  {
    var f := if p.obj in v.files then v.files[p.obj].(hdr := a) else File(a, 0, 0, {}, map[]);
    v.(t := u, flash := v.flash[a := p], files := v.files[p.obj := f])
  }

  /** A header records the size in RAM. A shrink header is written when no data lies past that size; a
      header with the new size ends a truncation. */
  predicate GoodHeader(v: Dev, p: Page, pend: Pending, after: Pending) {
    && p.Header?
    && if p.obj !in v.files then p.size == 0 && after == pend
       else
         && p.size == v.files[p.obj].size && (p.shrink ==> p.size == v.files[p.obj].end)
         && (|| after == pend
             || (pend == Cutting(p.obj, p.size) && after == Nothing && p.size == v.files[p.obj].end))
  }

  function OldHeader(v: Dev, o: nat): set<Addr> {
    if o in v.files then {v.files[o].hdr} else {}
  }

  lemma HeaderPages(v: Dev, u: Table, a: Addr, p: Page)
    requires Pages(v) && p.Header? && Allocated(v.t, u, a) && p.seqNumber == u.seqNumber
    ensures Pages(LinkHeader(v, u, a, p))
  {
  }

  lemma HeaderFirstPages(v: Dev, u: Table, a: Addr, p: Page)
    requires FirstPages(v) && Allocated(v.t, u, a) && p.Header?
    ensures FirstPages(LinkHeader(v, u, a, p))
  {
  }

  lemma HeaderIndex(v: Dev, u: Table, a: Addr, p: Page)
    requires Index(v) && a !in v.flash && u.bits == v.t.bits + {a} && p.Header?
    ensures Index(LinkHeader(v, u, a, p))
  {
    var w := LinkHeader(v, u, a, p);
    forall o, c, b | Mapped(w.files, o, c, b) ensures Entry(w, o, c, b) {
      assert Mapped(v.files, o, c, b) && Entry(v, o, c, b);
    }
  }

  lemma HeaderHdrs(v: Dev, u: Table, a: Addr, p: Page)
    requires Hdrs(v) && a !in v.flash && u.bits == v.t.bits + {a} && p.Header?
    ensures Hdrs(LinkHeader(v, u, a, p))
  {
  }

  lemma HeaderLive(v: Dev, u: Table, a: Addr, p: Page)
    requires Pages(v) && Hdrs(v) && Live(v, {}) && a !in v.flash && p.Header?
    requires u.bits == v.t.bits + {a} && u.soft == v.t.soft
    ensures Live(LinkHeader(v, u, a, p), OldHeader(v, p.obj))
  {
    var w := LinkHeader(v, u, a, p);
    forall b | b in w.t.bits && b !in OldHeader(v, p.obj) ensures InUse(w, b) {
      if b != a {
        assert InUse(v, b);
        assert v.flash[b].Data? ==> Mapped(w.files, v.flash[b].obj, v.flash[b].id, b);
      }
    }
  }

  lemma HeaderNewest(v: Dev, u: Table, a: Addr, p: Page)
    requires Newest(v) && Index(v) && Pages(v) && a !in v.flash && p.Header?
    requires forall b :: b in v.flash ==> Newer(v.flash[a := p], a, b)
    ensures Newest(LinkHeader(v, u, a, p))
  {
    var w := LinkHeader(v, u, a, p);
    forall o, c, x, b | Mapped(w.files, o, c, x) && IsData(w.flash, b, o, c) && b != x
      ensures Newer(w.flash, x, b)
    {
      assert Mapped(v.files, o, c, x) && Entry(v, o, c, x) && IsData(v.flash, b, o, c);
      assert Newer(v.flash, x, b);
    }
    forall o, b | o in w.files && IsHeader(w.flash, b, o) && b != w.files[o].hdr
      ensures Newer(w.flash, w.files[o].hdr, b)
    {
      if o != p.obj { assert IsHeader(v.flash, b, o) && Newer(v.flash, v.files[o].hdr, b); }
    }
  }

  lemma HeaderUncut(v: Dev, u: Table, a: Addr, p: Page, pend: Pending, after: Pending)
    requires Uncut(v) && Index(v) && a !in v.flash && GoodHeader(v, p, pend, after)
    requires forall b :: b in v.flash ==> Newer(v.flash[a := p], a, b)
    ensures Uncut(LinkHeader(v, u, a, p))
  {
    var w := LinkHeader(v, u, a, p);
    forall o, c, x, h | Mapped(w.files, o, c, x) && Shrinks(w, o, h) && Newer(w.flash, h, x)
      ensures Base(w.chunkBytes, c) < w.flash[h].size
    {
      assert Mapped(v.files, o, c, x) && Entry(v, o, c, x);
      if h != a { assert Shrinks(v, o, h) && Newer(v.flash, h, x); }
    }
  }

  lemma HeaderJustified(v: Dev, u: Table, a: Addr, p: Page, pend: Pending, after: Pending, d: Addr)
    requires a !in v.flash && GoodHeader(v, p, pend, after)
    requires d in v.flash && v.flash[d].Data? && v.flash[d].obj in v.files && Justified(v, pend, d)
    requires |u.blocks| == |v.t.blocks|
    requires forall b :: 0 <= b < |u.blocks| ==> u.blocks[b].hasShrinkHdr == v.t.blocks[b].hasShrinkHdr
    requires Newer(v.flash[a := p], a, d)
    ensures Justified(LinkHeader(v, u, a, p), after, d)
  {
    var w := LinkHeader(v, u, a, p);
    var o, c := v.flash[d].obj, v.flash[d].id;
    if Superseded(v, d) {
      assert Superseded(w, d);
    } else if Late(v, d) {
      assert Late(w, d);
    } else if PastEnd(v, d) && pend != Opening(o) {
      assert PastEnd(w, d);
    } else {
      var q :| Shields(v, q, d);
      assert Shields(w, q, d);
    }
  }

  lemma HeaderDeadKnown(v: Dev, u: Table, a: Addr, p: Page, pend: Pending, after: Pending)
    requires Pages(v) && DeadKnown(v, pend) && a !in v.flash && GoodHeader(v, p, pend, after)
    requires Allocated(v.t, u, a)
    requires forall b :: b in v.flash ==> Newer(v.flash[a := p], a, b)
    ensures DeadKnown(LinkHeader(v, u, a, p), after)
  {
    var w := LinkHeader(v, u, a, p);
    forall d | Dead(w, d) && !Excused(w, after, d) ensures Justified(w, after, d) {
      assert d != a && Newer(w.flash, a, d) && Dead(v, d);
      if Excused(v, pend, d) {
        assert PastEnd(w, d);
      } else {
        HeaderJustified(v, u, a, p, pend, after, d);
      }
    }
  }

  lemma HeaderSizes(v: Dev, u: Table, a: Addr, p: Page, pend: Pending, after: Pending)
    requires Pages(v) && Hdrs(v) && Sizes(v, pend) && a !in v.flash && GoodHeader(v, p, pend, after)
    requires forall b :: b in v.flash ==> Newer(v.flash[a := p], a, b)
    ensures Sizes(LinkHeader(v, u, a, p), after)
  {
    var w := LinkHeader(v, u, a, p);
    forall o | o in w.files ensures HeaderWithin(w, after, o) {
      if o in v.files { assert HeaderWithin(v, pend, o); }
    }
    forall d | AfterHeader(w, d) && !Cuts(after, w.flash[d].obj) ensures WithinEnd(w, d) {
      assert Newer(w.flash, a, d);
      if v.flash[d].obj != p.obj { assert AfterHeader(v, d) && WithinEnd(v, d); }
    }
  }

  lemma HeaderInv(v: Dev, u: Table, a: Addr, p: Page, pend: Pending, after: Pending)
    requires Inv(v, {}, pend) && GoodHeader(v, p, pend, after)
    requires Allocated(v.t, u, a) && p.seqNumber == u.seqNumber && BlockTable.Inv(u)
    ensures Inv(LinkHeader(v, u, a, p), OldHeader(v, p.obj), after)
  {
    assert p.Header? && u.bits == v.t.bits + {a} && u.soft == v.t.soft;
    hide Pages, FirstPages, Index, Hdrs, Live, Newest, Uncut, DeadKnown, Sizes, GoodHeader, Allocated, BlockTable.Inv;
    AllocIsNewest(v, u, a, p);
    HeaderPages(v, u, a, p);
    HeaderFirstPages(v, u, a, p);
    HeaderIndex(v, u, a, p);
    HeaderHdrs(v, u, a, p);
    HeaderLive(v, u, a, p);
    HeaderNewest(v, u, a, p);
    HeaderUncut(v, u, a, p, pend, after);
    HeaderDeadKnown(v, u, a, p, pend, after);
    HeaderSizes(v, u, a, p, pend, after);
  }

  // ----- changes to the block table alone -----

  /** `u` says the same as `t` about the pages on flash, and protects at least as much. */
  ghost predicate SameLog(t: Table, u: Table) {
    && |u.blocks| == |t.blocks| && u.cpb == t.cpb && u.soft == t.soft
    && (u.allocBlock.Some? ==> (u.allocBlock == t.allocBlock && u.allocPage == t.allocPage) || u.allocPage == 0)
    && (forall b :: 0 <= b < |t.blocks| && MayHoldData(t.blocks[b].state) ==>
          && MayHoldData(u.blocks[b].state) && u.blocks[b].seqNumber == t.blocks[b].seqNumber
          && (u.allocBlock == Some(b) ==> t.allocBlock == Some(b) && u.allocPage == t.allocPage)
          && (t.blocks[b].hasShrinkHdr ==> u.blocks[b].hasShrinkHdr))
  }

  lemma RetableDead(v: Dev, u: Table, pend: Pending)
    requires Pages(v) && DeadKnown(v, pend) && SameLog(v.t, u)
    ensures DeadKnown(v.(t := u), pend)
  {
    var w := v.(t := u);
    forall d | Dead(w, d) && !Excused(w, pend, d) ensures Justified(w, pend, d) {
      assert Dead(v, d) && !Excused(v, pend, d) && Justified(v, pend, d);
      if Superseded(v, d) {
        assert Superseded(w, d);
      } else if Late(v, d) {
        assert Late(w, d);
      } else if PastEnd(v, d) && pend != Opening(v.flash[d].obj) {
        assert PastEnd(w, d);
      } else {
        var q :| Shields(v, q, d);
        assert Shields(w, q, d);
      }
    }
  }

  lemma RetablePages(v: Dev, u: Table)
    requires Pages(v) && FirstPages(v) && SameLog(v.t, u)
    ensures Pages(v.(t := u)) && FirstPages(v.(t := u))
  {
  }

  lemma RetableLive(v: Dev, u: Table, limbo: set<Addr>, rest: set<Addr>)
    requires Live(v, limbo) && u.soft == v.t.soft
    requires rest <= limbo && u.bits == v.t.bits - (limbo - rest)
    ensures Live(v.(t := u), rest)
  {
    var w := v.(t := u);
    forall a | a in w.t.bits && a !in rest ensures InUse(w, a) { assert InUse(v, a); }
    forall a | a in rest ensures !InUse(w, a) { assert !InUse(v, a); }
  }

  lemma RetableOrder(v: Dev, u: Table)
    requires Newest(v) && Uncut(v)
    ensures Newest(v.(t := u)) && Uncut(v.(t := u))
  {
    var w := v.(t := u);
    forall o, c, x, h | Mapped(w.files, o, c, x) && Shrinks(w, o, h) && Newer(w.flash, h, x)
      ensures Base(w.chunkBytes, c) < w.flash[h].size { assert Shrinks(v, o, h); }
  }

  /** Bits outside `limbo` are untouched; those taken off `limbo` were cleared. */
  lemma RetableInv(v: Dev, u: Table, limbo: set<Addr>, rest: set<Addr>, pend: Pending)
    requires Inv(v, limbo, pend) && SameLog(v.t, u) && BlockTable.Inv(u)
    requires rest <= limbo && u.bits == v.t.bits - (limbo - rest)
    ensures Inv(v.(t := u), rest, pend)
  {
    assert u.soft == v.t.soft;
    hide Pages, FirstPages, Index, Hdrs, Live, Newest, Uncut, DeadKnown, Sizes, SameLog, BlockTable.Inv;
    RetablePages(v, u);
    RetableDead(v, u, pend);
    RetableLive(v, u, limbo, rest);
    RetableOrder(v, u);
    RetableIndex(v, u, limbo, rest);
    RetableSizes(v, u, pend);
  }

  lemma RetableIndex(v: Dev, u: Table, limbo: set<Addr>, rest: set<Addr>)
    requires Index(v) && Hdrs(v) && Live(v, limbo)
    requires rest <= limbo && u.bits == v.t.bits - (limbo - rest)
    ensures Index(v.(t := u)) && Hdrs(v.(t := u))
  {
    var w := v.(t := u);
    forall o, c, a | Mapped(w.files, o, c, a) ensures Entry(w, o, c, a) {
      assert Mapped(v.files, o, c, a) && Entry(v, o, c, a) && InUse(v, a);
    }
    forall o | o in w.files ensures w.files[o].hdr in w.t.bits {
      assert InUse(v, v.files[o].hdr);
    }
  }

  lemma RetableSizes(v: Dev, u: Table, pend: Pending)
    requires Sizes(v, pend)
    ensures Sizes(v.(t := u), pend)
  {
    var w := v.(t := u);
    forall o | o in w.files ensures HeaderWithin(w, pend, o) { assert HeaderWithin(v, pend, o); }
    forall d | AfterHeader(w, d) && !Cuts(pend, w.flash[d].obj) ensures WithinEnd(w, d) {
      assert AfterHeader(v, d) && WithinEnd(v, d);
    }
  }

  // ----- erasing a block -----

  function WithoutBlock(f: map<Addr, Page>, i: nat): map<Addr, Page> {
    map a | a in f && a.block != i :: f[a]
  }

  function Erase(v: Dev, i: nat): Dev
    requires i < |v.t.blocks|
  {
    v.(t := BecameDirty(v.t, i, true), flash := WithoutBlock(v.flash, i))
  }

  ghost predicate Erasable(v: Dev, i: nat) {
    && i < |v.t.blocks| && MayHoldData(v.t.blocks[i].state) && ErasesNow(v.t.blocks[i])
    && (forall a :: a in v.t.bits ==> a.block != i)
  }

  lemma EraseDead(v: Dev, i: nat, pend: Pending)
    requires Hdrs(v) && DeadKnown(v, pend) && Erasable(v, i)
    ensures DeadKnown(Erase(v, i), pend)
  {
    var w := Erase(v, i);
    forall d | Dead(w, d) && !Excused(w, pend, d) ensures Justified(w, pend, d) {
      assert Dead(v, d) && !Excused(v, pend, d) && Justified(v, pend, d);
      if Superseded(v, d) {
        assert Superseded(w, d);
      } else if Late(v, d) {
        assert Late(w, d);
      } else if PastEnd(v, d) && pend != Opening(v.flash[d].obj) {
        assert PastEnd(w, d);
      } else {
        var q :| Shields(v, q, d);
        assert Shields(w, q, d);
      }
    }
  }

  lemma EraseIndex(v: Dev, i: nat)
    requires Index(v) && Hdrs(v) && Live(v, {}) && Erasable(v, i)
    ensures Index(Erase(v, i)) && Hdrs(Erase(v, i)) && Live(Erase(v, i), {})
  {
    var w := Erase(v, i);
    assert InBlock(v.t.bits, i) == {};
    assert w.t.bits == v.t.bits;
    forall o, c, a | Mapped(w.files, o, c, a) ensures Entry(w, o, c, a) {
      assert Mapped(v.files, o, c, a) && Entry(v, o, c, a);
    }
    forall a | a in w.t.bits ensures InUse(w, a) { assert InUse(v, a); }
  }

  lemma EraseOrder(v: Dev, i: nat)
    requires Newest(v) && Uncut(v) && Index(v) && Hdrs(v) && Erasable(v, i)
    ensures Newest(Erase(v, i)) && Uncut(Erase(v, i))
  {
    var w := Erase(v, i);
    forall o, c, x, b | Mapped(w.files, o, c, x) && IsData(w.flash, b, o, c) && b != x
      ensures Newer(w.flash, x, b)
    {
      assert Mapped(v.files, o, c, x) && Entry(v, o, c, x) && IsData(v.flash, b, o, c) && Newer(v.flash, x, b);
    }
    forall o, b | o in w.files && IsHeader(w.flash, b, o) && b != w.files[o].hdr
      ensures Newer(w.flash, w.files[o].hdr, b)
    {
      assert IsHeader(v.flash, b, o) && Newer(v.flash, v.files[o].hdr, b);
    }
    forall o, c, x, h | Mapped(w.files, o, c, x) && Shrinks(w, o, h) && Newer(w.flash, h, x)
      ensures Base(w.chunkBytes, c) < w.flash[h].size
    {
      assert Mapped(v.files, o, c, x) && Shrinks(v, o, h) && Newer(v.flash, h, x);
    }
  }

  lemma ErasePages(v: Dev, i: nat)
    requires Pages(v) && FirstPages(v) && AllocPoint(v.t) && Erasable(v, i)
    ensures Pages(Erase(v, i)) && FirstPages(Erase(v, i))
  {
  }

  lemma EraseSizes(v: Dev, i: nat, pend: Pending)
    requires Sizes(v, pend) && Hdrs(v) && Erasable(v, i)
    ensures Sizes(Erase(v, i), pend)
  {
    var w := Erase(v, i);
    forall o | o in w.files ensures HeaderWithin(w, pend, o) { assert HeaderWithin(v, pend, o); }
    forall d | AfterHeader(w, d) && !Cuts(pend, w.flash[d].obj) ensures WithinEnd(w, d) {
      assert AfterHeader(v, d) && WithinEnd(v, d);
    }
  }

  lemma EraseInv(v: Dev, i: nat, pend: Pending)
    requires Inv(v, {}, pend) && i < |v.t.blocks|
    requires MayHoldData(v.t.blocks[i].state) && ErasesNow(v.t.blocks[i])
    ensures Inv(Erase(v, i), {}, pend)
  {
    assert InBlock(v.t.bits, i) == {};
    forall a | a in v.t.bits ensures a.block != i { assert a.block == i ==> a in InBlock(v.t.bits, i); }
    assert Erasable(v, i);
    ErasePages(v, i);
    hide Pages, FirstPages, Index, Hdrs, Live, Newest, Uncut, DeadKnown, Sizes, Erasable, BlockTable.Inv;
    BecameDirtyInv(v.t, i, true);
    EraseIndex(v, i);
    EraseOrder(v, i);
    EraseDead(v, i, pend);
    EraseSizes(v, i, pend);
  }

  // ----- deleting a page and unmapping a chunk -----

  /** yaffs_chunk_del, with the erasure it may trigger. */
  function Delete(v: Dev, a: Addr): Dev {
    if a.block >= |v.t.blocks| || !MayHoldData(v.t.blocks[a.block].state) then v
    else
      var w := v.(t := ClearBit(v.t, a));
      if ErasesNow(w.t.blocks[a.block]) then Erase(w, a.block) else w
  }

  lemma ClearLimbo(v: Dev, a: Addr, pend: Pending)
    requires Inv(v, {a}, pend)
    ensures a.block < |v.t.blocks| && MayHoldData(v.t.blocks[a.block].state)
    ensures Inv(v.(t := ClearBit(v.t, a)), {}, pend)
  {
    hide Inv, SameLog, BlockTable.Inv, MayHoldData;
    LimboFacts(v, a, pend);
    var u := ClearBit(v.t, a);
    ClearBitSame(v.t, a);
    ClearBitInv(v.t, a);
    assert u.bits == v.t.bits - ({a} - {});
    RetableInv(v, u, {a}, {}, pend);
  }

  lemma DeleteInv(v: Dev, a: Addr, pend: Pending)
    requires Inv(v, {a}, pend)
    ensures Inv(Delete(v, a), {}, pend)
  {
    hide Inv;
    ClearLimbo(v, a, pend);
    var w := v.(t := ClearBit(v.t, a));
    if ErasesNow(w.t.blocks[a.block]) { EraseInv(w, a.block, pend); }
  }

  lemma LimboFacts(v: Dev, a: Addr, pend: Pending)
    requires Inv(v, {a}, pend)
    ensures BlockTable.Inv(v.t) && a in v.t.bits && v.t.soft == {}
    ensures a.block < |v.t.blocks| && MayHoldData(v.t.blocks[a.block].state)
  {
  }

  lemma ClearBitSame(t: Table, a: Addr)
    requires a.block < |t.blocks|
    ensures SameLog(t, ClearBit(t, a))
  {
  }

  function Unlink(v: Dev, o: nat, c: nat): Dev
    requires o in v.files
  {
    var f := v.files[o];
    v.(files := v.files[o := f.(chunks := f.chunks - {c})])
  }

  lemma UnlinkInv(v: Dev, o: nat, c: nat, size: nat)
    requires Inv(v, {}, Cutting(o, size)) && o in v.files && c in v.files[o].chunks
    requires size <= Base(v.chunkBytes, c)
    ensures Inv(Unlink(v, o, c), {v.files[o].chunks[c]}, Cutting(o, size))
  {
    hide Pages, FirstPages, Index, Hdrs, Live, Newest, Uncut, DeadKnown, Sizes, BlockTable.Inv;
    UnlinkPages(v, o, c);
    UnlinkIndex(v, o, c);
    UnlinkOrder(v, o, c);
    UnlinkDead(v, o, c, size);
    UnlinkSizes(v, o, c, size);
  }

  lemma UnlinkPages(v: Dev, o: nat, c: nat)
    requires Pages(v) && FirstPages(v) && Hdrs(v) && o in v.files
    ensures Pages(Unlink(v, o, c)) && FirstPages(Unlink(v, o, c)) && Hdrs(Unlink(v, o, c))
  {
    var w := Unlink(v, o, c);
    assert w.flash == v.flash && w.t == v.t && w.files.Keys == v.files.Keys;
  }

  lemma UnlinkIndex(v: Dev, o: nat, c: nat)
    requires Index(v) && Live(v, {}) && o in v.files && c in v.files[o].chunks
    ensures Index(Unlink(v, o, c)) && Live(Unlink(v, o, c), {v.files[o].chunks[c]})
  {
    var w := Unlink(v, o, c);
    forall p, e, a | Mapped(w.files, p, e, a) ensures Entry(w, p, e, a) {
      assert Mapped(v.files, p, e, a) && Entry(v, p, e, a);
    }
    assert Mapped(v.files, o, c, v.files[o].chunks[c]) && Entry(v, o, c, v.files[o].chunks[c]);
    forall a | a in w.t.bits && a !in {v.files[o].chunks[c]} ensures InUse(w, a) { assert InUse(v, a); }
  }

  lemma UnlinkOrder(v: Dev, o: nat, c: nat)
    requires Newest(v) && Uncut(v) && o in v.files
    ensures Newest(Unlink(v, o, c)) && Uncut(Unlink(v, o, c))
  {
    var w := Unlink(v, o, c);
    forall p, e, x, b | Mapped(w.files, p, e, x) && IsData(w.flash, b, p, e) && b != x
      ensures Newer(w.flash, x, b) { assert Mapped(v.files, p, e, x); }
    forall p, e, x, h | Mapped(w.files, p, e, x) && Shrinks(w, p, h) && Newer(w.flash, h, x)
      ensures Base(w.chunkBytes, e) < w.flash[h].size
    {
      assert Mapped(v.files, p, e, x) && Shrinks(v, p, h);
    }
  }

  lemma UnlinkDead(v: Dev, o: nat, c: nat, size: nat)
    requires DeadKnown(v, Cutting(o, size)) && o in v.files && size <= Base(v.chunkBytes, c)
    ensures DeadKnown(Unlink(v, o, c), Cutting(o, size))
  {
    var w, pend := Unlink(v, o, c), Cutting(o, size);
    forall d | Dead(w, d) && !Excused(w, pend, d) ensures Justified(w, pend, d) {
      assert !(v.flash[d].obj == o && v.flash[d].id == c);
      assert Dead(v, d) && !Excused(v, pend, d) && Justified(v, pend, d);
      if Superseded(v, d) {
        assert Superseded(w, d);
      } else if Late(v, d) {
        assert Late(w, d);
      } else if PastEnd(v, d) && pend != Opening(v.flash[d].obj) {
        assert PastEnd(w, d);
      } else {
        var q :| Shields(v, q, d);
        assert Shields(w, q, d);
      }
    }
  }

  lemma UnlinkSizes(v: Dev, o: nat, c: nat, size: nat)
    requires Sizes(v, Cutting(o, size)) && o in v.files
    ensures Sizes(Unlink(v, o, c), Cutting(o, size))
  {
    var w := Unlink(v, o, c);
    forall p | p in w.files
      ensures HeaderWithin(w, Cutting(o, size), p)
    {
      assert HeaderWithin(v, Cutting(o, size), p);
    }
    forall d | AfterHeader(w, d) && w.flash[d].obj != o ensures WithinEnd(w, d) {
      assert AfterHeader(v, d) && WithinEnd(v, d);
    }
  }

  // ----- starting to collect a block -----

  /** A block holding shrink headers is collected only when every older block is full of
      live pages, so that nothing those headers cut can come back. */
  predicate GcSafe(t: Table, i: nat) {
    i < |t.blocks| && (t.blocks[i].hasShrinkHdr ==>
      forall b :: 0 <= b < |t.blocks| && MayHoldData(t.blocks[b].state)
        && t.blocks[b].seqNumber < t.blocks[i].seqNumber
        ==> t.blocks[b].pagesInUse - t.blocks[b].softDel >= t.cpb)
  }

  function PagesOf(b: nat, n: nat): (r: set<Addr>) {
    set p | 0 <= p < n :: Addr(b, p)
  }

  lemma {:induction false} PagesOfSize(b: nat, n: nat)
    ensures |PagesOf(b, n)| == n
  {
    if n > 0 {
      PagesOfSize(b, n - 1);
      assert PagesOf(b, n) == PagesOf(b, n - 1) + {Addr(b, n - 1)};
    }
  }

  /** A block with as many pages in use as it has pages has every bit set. */
  lemma FullyLive(t: Table, a: Addr)
    requires Bits(t) && a.block < |t.blocks| && a.page < t.cpb
    requires t.blocks[a.block].pagesInUse >= t.cpb
    ensures a in t.bits
  {
    var s := InBlock(t.bits, a.block);
    assert s <= PagesOf(a.block, t.cpb) by {
      forall x | x in s ensures x in PagesOf(a.block, t.cpb) { assert x == Addr(a.block, x.page); }
    }
    PagesOfSize(a.block, t.cpb);
    if a !in s {
      assert a == Addr(a.block, a.page);
      assert s < PagesOf(a.block, t.cpb);
      SubsetSmaller(s, PagesOf(a.block, t.cpb));
    }
  }

  lemma SubsetSmaller(s: set<Addr>, r: set<Addr>)
    requires s < r
    ensures |s| < |r|
  {
    assert r == s + (r - s);
  }

  lemma GcBeginDead(v: Dev, i: nat, pend: Pending)
    requires Pages(v) && DeadKnown(v, pend) && Live(v, {}) && Bits(v.t) && SeqNumbers(v.t) && GcSafe(v.t, i)
    ensures DeadKnown(v.(t := GcBegin(v.t, i)), pend)
  {
    var w := v.(t := GcBegin(v.t, i));
    forall d | Dead(w, d) && !Excused(w, pend, d) ensures Justified(w, pend, d) {
      assert Dead(v, d) && !Excused(v, pend, d) && Justified(v, pend, d);
      if Superseded(v, d) {
        assert Superseded(w, d);
      } else if Late(v, d) {
        assert Late(w, d);
      } else if PastEnd(v, d) && pend != Opening(v.flash[d].obj) {
        assert PastEnd(w, d);
      } else {
        var q :| Shields(v, q, d);
        GcBeginShield(v, i, q, d);
        assert Shields(w, q, d);
      }
    }
  }

  lemma GcBeginShield(v: Dev, i: nat, q: Addr, d: Addr)
    requires Pages(v) && Live(v, {}) && Bits(v.t) && SeqNumbers(v.t) && GcSafe(v.t, i)
    requires Shields(v, q, d) && Dead(v, d)
    ensures q.block != i || q.block == d.block
  {
    if q.block == i && d.block != i {
      assert v.t.blocks[d.block].seqNumber < v.t.blocks[i].seqNumber;
      assert InBlock(v.t.soft, d.block) == {};
      FullyLive(v.t, d);
    }
  }

  lemma GcBeginPages(v: Dev, i: nat)
    requires Pages(v) && FirstPages(v)
    ensures Pages(v.(t := GcBegin(v.t, i))) && FirstPages(v.(t := GcBegin(v.t, i)))
  {
  }

  lemma GcBeginKept(v: Dev, i: nat, pend: Pending)
    requires Inv(v, {}, pend) && GcSafe(v.t, i)
    ensures Inv(v.(t := GcBegin(v.t, i)), {}, pend)
  {
    var u := GcBegin(v.t, i);
    assert DeadKnown(v.(t := u), pend) by { GcBeginDead(v, i, pend); }
    GcBeginPages(v, i);
    hide Pages, FirstPages, Index, Hdrs, Live, Newest, Uncut, DeadKnown, Sizes, BlockTable.Inv;
    GcBeginInv(v.t, i);
    assert u.bits == v.t.bits && u.soft == v.t.soft;
    RetableLive(v, u, {}, {});
    RetableOrder(v, u);
    RetableIndex(v, u, {}, {});
    RetableSizes(v, u, pend);
  }
}
