/** What a mount finds after a run, told from the order of the writes alone, and when that is what was in
    RAM. A header written while a write call is under way, as a collection does, records the size from
    before the call and cuts off what the call has already written past it. */
module FlashRecovery {
  import opened Basics
  import opened BlockTable
  import opened FlashLog
  import opened FlashOps
  import opened MountScan
  import opened FlashRuns
  import opened ScanOrdering

  /** Of one file: the chunks cut off by its newest header, and the size that can be read back. */
  datatype Trace = Trace(cut: set<nat>, end: nat)

  function ChunkWritten(x: Trace, d: nat, c: nat, n: nat): Trace { Trace(x.cut - {c}, Max(x.end, Base(d, c) + n)) }

  /** A new header decides afresh: it cuts off the chunks at or past the size in RAM. */
  function HeaderWritten(v: Dev, o: nat): Trace {
    if o !in v.files then Trace({}, 0)
    else Trace((set c | c in v.files[o].chunks && v.files[o].size <= Base(v.chunkBytes, c)), v.files[o].size)
  }

  /** The step writes a header of file `o`. */
  predicate WritesHeader(s: Sys, op: FlashRuns.Op, o: nat)
    requires Allowed(s, op)
  {
    match op
    case CreateFile(p, hdr, ok) => p == o && PutHeader(s.v, o, false, hdr, ok).1
    case FlushHeader(p, hdr) => p == o && PutHeader(s.v, o, false, hdr, true).1
    case HoleHeader(p, hdr) => p == o && PutHeader(s.v, o, true, hdr, true).1
    case GrowHeader(p, hdr) => p == o && PutHeader(s.v, o, false, hdr, true).1
    case SealCut(hdr) => s.pend.obj == o && PutHeader(s.v, o, false, hdr, true).1
    case GcMove(a) => s.v.flash[a].Header? && s.v.flash[a].obj == o && GcCopy(s.v, a).1
    case _ => false
  }

  /** The chunk of file `o` that the step writes, with its valid bytes. */
  function WritesChunk(s: Sys, op: FlashRuns.Op, o: nat): Option<(nat, nat)>
    requires Allowed(s, op)
  {
    match op
    case WriteChunk(p, c, n, bytes, ok) =>
      if p == o && PutChunk(s.v, o, c, n, bytes, EndWith(s.v, o, c, n), ok).1 then Some((c, n)) else None
    case CutTail(tail) =>
      if s.pend.obj == o && Ragged(s.v.chunkBytes, s.pend.size) && FlashOps.CutTail(s.v, o, s.pend.size, tail).1
      then
        var k := ChunksIn(s.v.chunkBytes, s.pend.size);
        Some((k, s.pend.size - Base(s.v.chunkBytes, k)))
      else None
    case GcMove(a) =>
      if s.v.flash[a].Data? && s.v.flash[a].obj == o && GcCopy(s.v, a).1
      then Some((s.v.flash[a].id, s.v.flash[a].nBytes)) else None
    case _ => None
  }

  function Noted(s: Sys, op: FlashRuns.Op, o: nat, x: Trace): Trace
    requires Allowed(s, op)
  {
    if WritesHeader(s, op, o) then HeaderWritten(s.v, o)
    else if op.CutChunk? && s.pend.obj == o then x.(cut := x.cut - {op.id})
    else
      match WritesChunk(s, op, o)
      case Some((c, n)) => ChunkWritten(x, s.v.chunkBytes, c, n)
      case None => x
  }

  function Follow(s: Sys, ops: seq<FlashRuns.Op>, o: nat, x: Trace): Trace
    decreases |ops|
  {
    if ops == [] || !Allowed(s, ops[0]) then x else Follow(Step(s, ops[0]), ops[1..], o, Noted(s, ops[0], o, x))
  }

  /** The trace says what the flash holds. */
  ghost predicate Tracks(v: Dev, pend: Pending, o: nat, x: Trace) {
    o in v.files ==>
      && (forall c :: c in x.cut <==> CutAt(v, o, c))
      && (!Cuts(pend, o) ==> Reads(v, o, x.end))
  }

  predicate CutAt(v: Dev, o: nat, c: nat) {
    o in v.files && c in v.files[o].chunks && CutOff(v, o, v.files[o].chunks[c])
  }

  // ----- changes that leave the pages of a file alone -----

  /** `w` still has every page file `o` uses, where it was; it may lack pages nobody uses. */
  ghost predicate KeepsPages(v: Dev, w: Dev, o: nat) {
    && w.chunkBytes == v.chunkBytes && o in v.files && o in w.files
    && w.files[o].hdr == v.files[o].hdr && w.files[o].chunks == v.files[o].chunks
    && (forall a :: a in w.flash ==> a in v.flash && w.flash[a] == v.flash[a])
    && v.files[o].hdr in w.flash
    && (forall c :: c in v.files[o].chunks ==> v.files[o].chunks[c] in w.flash)
  }

  lemma TracksKept(v: Dev, w: Dev, pend: Pending, o: nat, x: Trace)
    requires KeepsPages(v, w, o) && Tracks(v, pend, o, x) && Hdrs(v)
    ensures Tracks(w, pend, o, x)
  {
    forall c ensures c in x.cut <==> CutAt(w, o, c) { assert c in x.cut <==> CutAt(v, o, c); }
    if !Cuts(pend, o) {
      forall d | AfterHeader(w, d) && w.flash[d].obj == o ensures EndBy(w, d, x.end) {
        assert AfterHeader(v, d) && EndBy(v, d, x.end);
      }
      if x.end != v.flash[v.files[o].hdr].size {
        var c :| TopAt(v, o, c, x.end);
        assert TopAt(w, o, c, x.end);
      }
    }
  }

  lemma DeleteKeepsPages(v: Dev, a: Addr, o: nat)
    requires Bits(v.t) && Index(v) && Hdrs(v) && a in v.t.bits && o in v.files
    requires a != v.files[o].hdr && forall c :: c in v.files[o].chunks ==> v.files[o].chunks[c] != a
    ensures KeepsPages(v, Delete(v, a), o)
  {
    DeleteKeeps(v, a, v.files[o].hdr);
    forall c | c in v.files[o].chunks ensures v.files[o].chunks[c] in Delete(v, a).flash {
      assert Mapped(v.files, o, c, v.files[o].chunks[c]) && Entry(v, o, c, v.files[o].chunks[c]);
      DeleteKeeps(v, a, v.files[o].chunks[c]);
    }
  }

  lemma EraseKeepsPages(v: Dev, i: nat, o: nat)
    requires Index(v) && Hdrs(v) && Erasable(v, i) && o in v.files
    ensures KeepsPages(v, Erase(v, i), o)
  {
    forall c | c in v.files[o].chunks ensures v.files[o].chunks[c] in Erase(v, i).flash {
      assert Mapped(v.files, o, c, v.files[o].chunks[c]) && Entry(v, o, c, v.files[o].chunks[c]);
    }
  }

  lemma SamePages(v: Dev, w: Dev, o: nat)
    requires w.flash == v.flash && w.chunkBytes == v.chunkBytes && o in v.files && o in w.files && Hdrs(v) && Index(v)
    requires w.files[o].hdr == v.files[o].hdr && w.files[o].chunks == v.files[o].chunks
    ensures KeepsPages(v, w, o)
  {
    forall c | c in v.files[o].chunks ensures v.files[o].chunks[c] in w.flash {
      assert Mapped(v.files, o, c, v.files[o].chunks[c]) && Entry(v, o, c, v.files[o].chunks[c]);
    }
  }

  // ----- a page written for a file -----

  lemma LinkTracks(v: Dev, u: Table, a: Addr, p: Page, end: nat, pend: Pending, o: nat, x: Trace)
    requires Index(v) && Hdrs(v) && Tracks(v, pend, o, x)
    requires a !in v.flash && p.Data? && p.obj in v.files && o in v.files
    requires forall b :: b in v.flash ==> Newer(v.flash[a := p], a, b)
    requires o == p.obj && !Cuts(pend, o) ==> NotShorter(v, o, p.id, p.nBytes)
    ensures var y := if o == p.obj then ChunkWritten(x, v.chunkBytes, p.id, p.nBytes) else x;
      Tracks(LinkData(v, u, a, p, end), pend, o, y)
  {
    var w := LinkData(v, u, a, p, end);
    var y := if o == p.obj then ChunkWritten(x, v.chunkBytes, p.id, p.nBytes) else x;
    forall c ensures c in y.cut <==> CutAt(w, o, c) {
      assert c in x.cut <==> CutAt(v, o, c);
      if c in v.files[o].chunks {
        assert Mapped(v.files, o, c, v.files[o].chunks[c]) && Entry(v, o, c, v.files[o].chunks[c]);
      }
    }
    if !Cuts(pend, o) { LinkReads(v, u, a, p, end, o, x); }
  }

  lemma LinkReads(v: Dev, u: Table, a: Addr, p: Page, end: nat, o: nat, x: Trace)
    requires Index(v) && Hdrs(v) && Reads(v, o, x.end) && a !in v.flash && p.Data? && p.obj in v.files && o in v.files
    requires forall b :: b in v.flash ==> Newer(v.flash[a := p], a, b)
    requires o == p.obj ==> NotShorter(v, o, p.id, p.nBytes)
    ensures var y := if o == p.obj then ChunkWritten(x, v.chunkBytes, p.id, p.nBytes) else x;
      Reads(LinkData(v, u, a, p, end), o, y.end)
  {
    var w := LinkData(v, u, a, p, end);
    var e := if o == p.obj then Max(x.end, Base(v.chunkBytes, p.id) + p.nBytes) else x.end;
    forall d | AfterHeader(w, d) && w.flash[d].obj == o ensures EndBy(w, d, e) {
      if d != a { assert AfterHeader(v, d) && EndBy(v, d, x.end); }
    }
    if e > x.end {
      assert TopAt(w, o, p.id, e);
    } else if x.end != v.flash[v.files[o].hdr].size {
      var c :| TopAt(v, o, c, x.end);
      assert Mapped(v.files, o, c, v.files[o].chunks[c]) && Entry(v, o, c, v.files[o].chunks[c]);
      assert TopAt(w, o, c, e);
    }
  }

  lemma HeaderTracks(v: Dev, u: Table, a: Addr, p: Page, pend: Pending, after: Pending, o: nat, x: Trace)
    requires Pages(v) && Index(v) && Hdrs(v) && Tracks(v, pend, o, x) && a !in v.flash && p.Header?
    requires forall b :: b in v.flash ==> Newer(v.flash[a := p], a, b)
    requires p.size == SizeIn(v, p.obj) && (o == p.obj || (Cuts(pend, o) <==> Cuts(after, o)))
    ensures Tracks(LinkHeader(v, u, a, p), after, o, if o == p.obj then HeaderWritten(v, o) else x)
  {
    hide Index, Hdrs, HeaderWritten;
    if o == p.obj {
      OwnHeader(v, u, a, p, after);
    } else if o in v.files {
      OtherHeader(v, u, a, p, pend, o, x);
    }
  }

  lemma OwnHeader(v: Dev, u: Table, a: Addr, p: Page, after: Pending)
    requires Pages(v) && Index(v) && a !in v.flash && p.Header? && p.size == SizeIn(v, p.obj)
    requires forall b :: b in v.flash ==> Newer(v.flash[a := p], a, b)
    ensures Tracks(LinkHeader(v, u, a, p), after, p.obj, HeaderWritten(v, p.obj))
  {
    var w, o := LinkHeader(v, u, a, p), p.obj;
    var y := HeaderWritten(v, o);
    forall c ensures c in y.cut <==> CutAt(w, o, c) {
      if o in v.files && c in v.files[o].chunks {
        assert Mapped(v.files, o, c, v.files[o].chunks[c]) && Entry(v, o, c, v.files[o].chunks[c]);
      }
    }
    forall d | d in w.flash ensures !(AfterHeader(w, d) && w.flash[d].obj == o) {
      if d != a { assert Newer(w.flash, a, d); }
    }
  }

  lemma OtherHeader(v: Dev, u: Table, a: Addr, p: Page, pend: Pending, o: nat, x: Trace)
    requires Index(v) && Hdrs(v) && Tracks(v, pend, o, x) && a !in v.flash && p.Header? && o in v.files && o != p.obj
    ensures Tracks(LinkHeader(v, u, a, p), pend, o, x)
  {
    var w := LinkHeader(v, u, a, p);
    forall c ensures c in x.cut <==> CutAt(w, o, c) {
      assert c in x.cut <==> CutAt(v, o, c);
      if c in v.files[o].chunks {
        assert Mapped(v.files, o, c, v.files[o].chunks[c]) && Entry(v, o, c, v.files[o].chunks[c]);
      }
    }
    if !Cuts(pend, o) {
      forall d | AfterHeader(w, d) && w.flash[d].obj == o ensures EndBy(w, d, x.end) {
        assert AfterHeader(v, d) && EndBy(v, d, x.end);
      }
      if x.end != v.flash[v.files[o].hdr].size {
        var c :| TopAt(v, o, c, x.end);
        assert Mapped(v.files, o, c, v.files[o].chunks[c]) && Entry(v, o, c, v.files[o].chunks[c]);
        assert TopAt(w, o, c, x.end);
      }
    }
  }

  // ----- the steps -----

  /** A page about to be deleted belongs to no file. */
  lemma LimboApart(v: Dev, a: Addr, pend: Pending, o: nat)
    requires FlashLog.Inv(v, {a}, pend) && o in v.files
    ensures KeepsPages(v, Delete(v, a), o)
  {
    LimboFacts(v, a, pend);
    InvSound(v, {a}, pend);
    NotInLimbo(v, a, o);
    hide FlashLog.Inv, Delete, KeepsPages;
    DeleteKeepsPages(v, a, o);
  }

  lemma NotInLimbo(v: Dev, a: Addr, o: nat)
    requires Live(v, {a}) && Index(v) && Hdrs(v) && o in v.files
    ensures a != v.files[o].hdr && forall c :: c in v.files[o].chunks ==> v.files[o].chunks[c] != a
  {
    assert a in {a} && !InUse(v, a);
    forall c | c in v.files[o].chunks ensures v.files[o].chunks[c] != a {
      assert Mapped(v.files, o, c, v.files[o].chunks[c]) && Entry(v, o, c, v.files[o].chunks[c]);
    }
  }

  lemma PutChunkTracks(v: Dev, p: nat, c: nat, n: nat, bytes: Bytes, end: nat, ok: bool, pend: Pending, o: nat,
        x: Trace)
    requires FlashLog.Inv(v, {}, pend) && p in v.files && o in v.files && Tracks(v, pend, o, x)
    requires GoodWrite(v, Data(p, c, n, 0, bytes), end) && NoNewHole(v, p, c, end, pend)
    requires o == p && !Cuts(pend, o) ==> NotShorter(v, o, c, n)
    ensures var (w, done) := PutChunk(v, p, c, n, bytes, end, ok);
      Tracks(w, pend, o, if o == p && done then ChunkWritten(x, v.chunkBytes, c, n) else x)
  {
    var (u, r) := AllocChunk(v.t, ok);
    InvSound(v, {}, pend);
    if r.None? {
      SamePages(v, v.(t := u), o);
      hide *;
      TracksKept(v, v.(t := u), pend, o, x);
    } else {
      var q := Data(p, c, n, u.seqNumber, bytes);
      assert GoodWrite(v, q, end);
      var w := LinkData(v, u, r.value, q, end);
      var y := if o == p then ChunkWritten(x, v.chunkBytes, c, n) else x;
      hide FlashLog.Inv, GoodWrite, NoNewHole, NotShorter, AllocChunk, Allocated, LinkData, Delete, Tracks, KeepsPages;
      AllocOk(v, ok, pend);
      LinkInv(v, u, r.value, q, end, pend);
      LinkFresh(v, u, r.value, q, pend);
      LinkTracks(v, u, r.value, q, end, pend, o, x);
      DropOld(w, Displaced(v, p, c), pend, o, y);
    }
  }

  lemma LinkFresh(v: Dev, u: Table, a: Addr, q: Page, pend: Pending)
    requires FlashLog.Inv(v, {}, pend) && Allocated(v.t, u, a) && q.seqNumber == u.seqNumber
    ensures a !in v.flash && forall b :: b in v.flash ==> Newer(v.flash[a := q], a, b)
    ensures Pages(v) && Index(v) && Hdrs(v)
  {
    hide Allocated, Index, Hdrs;
    AllocIsNewest(v, u, a, q);
  }

  lemma LinkedHeader(v: Dev, u: Table, a: Addr, q: Page, pend: Pending, after: Pending, o: nat, x: Trace)
    requires FlashLog.Inv(v, {}, pend) && GoodHeader(v, q, pend, after) && Tracks(v, pend, o, x)
    requires Allocated(v.t, u, a) && q.seqNumber == u.seqNumber && BlockTable.Inv(u)
    requires o == q.obj || (Cuts(pend, o) <==> Cuts(after, o))
    ensures FlashLog.Inv(LinkHeader(v, u, a, q), OldHeader(v, q.obj), after)
    ensures Tracks(LinkHeader(v, u, a, q), after, o, if o == q.obj then HeaderWritten(v, o) else x)
  {
    assert q.Header? && q.size == SizeIn(v, q.obj);
    hide FlashLog.Inv, GoodHeader, Allocated, BlockTable.Inv, LinkHeader, Tracks, HeaderWritten, Pages, Index, Hdrs;
    HeaderInv(v, u, a, q, pend, after);
    LinkFresh(v, u, a, q, pend);
    HeaderTracks(v, u, a, q, pend, after, o, x);
  }

  lemma PutHeaderTracks(v: Dev, p: nat, shrink: bool, bytes: Bytes, ok: bool, pend: Pending, after: Pending,
        o: nat, x: Trace)
    requires FlashLog.Inv(v, {}, pend) && HeaderReady(v, p, shrink, pend, after) && Tracks(v, pend, o, x)
    requires o == p || (Cuts(pend, o) <==> Cuts(after, o))
    ensures var (w, done) := PutHeader(v, p, shrink, bytes, ok);
      Tracks(w, if done then after else pend, o, if o == p && done then HeaderWritten(v, o) else x)
  {
    var (u, r) := AllocChunk(v.t, ok);
    if r.None? {
      hide FlashLog.Inv, Tracks, AllocChunk;
      RetableTracks(v, u, pend, o, x);
    } else {
      var q := Header(p, SizeIn(v, p), shrink, u.seqNumber, bytes);
      assert GoodHeader(v, q, pend, after);
      var w := LinkHeader(v, u, r.value, q);
      var y := if o == p then HeaderWritten(v, o) else x;
      hide FlashLog.Inv, GoodHeader, AllocChunk, Allocated, BlockTable.Inv, LinkHeader, Delete, Tracks, MarkShrink;
      hide HeaderWritten;
      AllocOk(v, ok, pend);
      LinkedHeader(v, u, r.value, q, pend, after, o, x);
      DropOld(w, OldHeader(v, p), after, o, y);
      var z := if p in v.files then Delete(w, v.files[p].hdr) else w;
      if p in v.files { DeleteInv(w, v.files[p].hdr, after); }
      if shrink { MarkTracks(z, r.value.block, after, o, y); }
    }
  }

  /** Deleting the page a write has displaced, if there is one. */
  lemma DropOld(w: Dev, old': set<Addr>, pend: Pending, o: nat, x: Trace)
    requires FlashLog.Inv(w, old', pend) && Tracks(w, pend, o, x)
    ensures forall a :: old' == {a} ==> Tracks(Delete(w, a), pend, o, x)
  {
    hide FlashLog.Inv, Delete, KeepsPages;
    forall a | old' == {a} ensures Tracks(Delete(w, a), pend, o, x) {
      DeleteShape(w, a);
      if o in w.files {
        InvSound(w, {a}, pend);
        LimboApart(w, a, pend, o);
        TracksKept(w, Delete(w, a), pend, o, x);
      }
    }
  }

  lemma MarkTracks(v: Dev, i: nat, pend: Pending, o: nat, x: Trace)
    requires FlashLog.Inv(v, {}, pend) && Tracks(v, pend, o, x)
    ensures Tracks(v.(t := MarkShrink(v.t, i)), pend, o, x)
  {
    RetableTracks(v, MarkShrink(v.t, i), pend, o, x);
  }

  lemma RetableTracks(v: Dev, u: Table, pend: Pending, o: nat, x: Trace)
    requires FlashLog.Inv(v, {}, pend) && Tracks(v, pend, o, x)
    ensures Tracks(v.(t := u), pend, o, x)
  {
    if o in v.files {
      SamePages(v, v.(t := u), o);
      hide FlashLog.Inv, KeepsPages, Tracks;
      InvSound(v, {}, pend);
      TracksKept(v, v.(t := u), pend, o, x);
    }
  }

  lemma UnlinkTracks(v: Dev, p: nat, c: nat, size: nat, o: nat, x: Trace)
    requires FlashLog.Inv(v, {}, Cutting(p, size)) && Tracks(v, Cutting(p, size), o, x)
    requires p in v.files && c in v.files[p].chunks && size <= Base(v.chunkBytes, c)
    ensures Tracks(Unlink(v, p, c), Cutting(p, size), o, if o == p then x.(cut := x.cut - {c}) else x)
  {
    var w := Unlink(v, p, c);
    if o == p {
      hide FlashLog.Inv;
      var y := x.(cut := x.cut - {c});
      forall e ensures e in y.cut <==> CutAt(w, o, e) { assert e in x.cut <==> CutAt(v, o, e); }
    } else if o in v.files {
      hide FlashLog.Inv, KeepsPages, Tracks;
      InvSound(v, {}, Cutting(p, size));
      SamePages(v, w, o);
      TracksKept(v, w, Cutting(p, size), o, x);
    }
  }

  lemma CutOneTracks(v: Dev, p: nat, c: nat, size: nat, o: nat, x: Trace)
    requires FlashLog.Inv(v, {}, Cutting(p, size)) && Tracks(v, Cutting(p, size), o, x)
    requires p in v.files && c in v.files[p].chunks && size <= Base(v.chunkBytes, c)
    ensures Tracks(CutOne(v, p, c), Cutting(p, size), o, if o == p then x.(cut := x.cut - {c}) else x)
  {
    hide FlashLog.Inv, Delete, Tracks, Unlink;
    UnlinkTracks(v, p, c, size, o, x);
    UnlinkInv(v, p, c, size);
    DropOld(Unlink(v, p, c), {v.files[p].chunks[c]}, Cutting(p, size), o, if o == p then x.(cut := x.cut - {c}) else x);
  }

  lemma StartedTracks(v: Dev, i: nat, pend: Pending, o: nat, x: Trace)
    requires FlashLog.Inv(v, {}, pend) && GcSafe(v.t, i) && Tracks(v, pend, o, x)
    ensures Tracks(Started(v, i), pend, o, x)
  {
    hide FlashLog.Inv, Tracks, Erasable, KeepsPages, Index, Hdrs, Pages, BlockTable.Inv;
    var b := v.(t := GcBegin(v.t, i));
    GcBeginKept(v, i, pend);
    RetableTracks(v, b.t, pend, o, x);
    if b.t.blocks[i].pagesInUse == 0 && b.t.blocks[i].state == Collecting && o in v.files {
      InvSound(b, {}, pend);
      EmptyErasable(b, i);
      EraseKeepsPages(b, i, o);
      TracksKept(b, Erase(b, i), pend, o, x);
    } else if b.t.blocks[i].pagesInUse == 0 && b.t.blocks[i].state == Collecting {
      NoFileTracks(b, Erase(b, i), pend, o, x);
    }
  }

  lemma NoFileTracks(v: Dev, w: Dev, pend: Pending, o: nat, x: Trace)
    requires o !in v.files && w.files == v.files
    ensures Tracks(w, pend, o, x)
  {
  }

  /** New sizes in RAM change nothing on flash. */
  lemma RamTracks(v: Dev, w: Dev, pend: Pending, o: nat, x: Trace)
    requires FlashLog.Inv(v, {}, pend) && Tracks(v, pend, o, x)
    requires w.flash == v.flash && w.chunkBytes == v.chunkBytes && w.files.Keys == v.files.Keys
    requires forall p :: p in v.files ==> w.files[p].hdr == v.files[p].hdr && w.files[p].chunks == v.files[p].chunks
    ensures Tracks(w, pend, o, x)
  {
    if o in v.files {
      InvSound(v, {}, pend);
      SamePages(v, w, o);
      hide FlashLog.Inv, KeepsPages, Tracks;
      TracksKept(v, w, pend, o, x);
    }
  }

  lemma GcCopyTracks(v: Dev, a: Addr, pend: Pending, o: nat, x: Trace)
    requires FlashLog.Inv(v, {}, pend) && InUse(v, a) && Tracks(v, pend, o, x)
    ensures var (w, done) := GcCopy(v, a); var p := v.flash[a];
      Tracks(w, pend, o, if p.obj != o || !done then x else if p.Header? then HeaderWritten(v, o)
                         else ChunkWritten(x, v.chunkBytes, p.id, p.nBytes))
  {
    match v.flash[a]
    case Data(p, c, n, s, bytes) =>
      assert Mapped(v.files, p, c, a) && Entry(v, p, c, a);
      assert GoodWrite(v, Data(p, c, n, 0, bytes), v.files[p].end) && NotShorter(v, p, c, n);
      hide FlashLog.Inv, PutChunk, GoodWrite, Tracks, ChunkWritten;
      if o in v.files {
        PutChunkTracks(v, p, c, n, bytes, v.files[p].end, true, pend, o, x);
      } else {
        NoFileAfter(v, p, c, n, bytes, v.files[p].end, true, pend, o, x);
      }
    case Header(p, _, _, _, bytes) =>
      hide FlashLog.Inv, PutHeader, Tracks, HeaderWritten;
      PutHeaderTracks(v, p, false, bytes, true, pend, pend, o, x);
  }

  lemma NoFileAfter(v: Dev, p: nat, c: nat, n: nat, bytes: Bytes, end: nat, ok: bool, pend: Pending, o: nat, x: Trace)
    requires p in v.files && o !in v.files
    ensures Tracks(PutChunk(v, p, c, n, bytes, end, ok).0, pend, o, x)
  {
    if PutChunk(v, p, c, n, bytes, end, ok).1 { PutChunkSizes(v, p, c, n, bytes, end, ok); }
  }

  lemma WriteTracks(s: Sys, op: FlashRuns.Op, o: nat, x: Trace)
    requires FlashRuns.Inv(s) && op.WriteChunk? && Allowed(s, op) && Tracks(s.v, s.pend, o, x)
    ensures Tracks(Step(s, op).v, s.pend, o, Noted(s, op, o, x))
  {
    hide FlashLog.Inv, PutChunk, GoodWrite, NoNewHole, Tracks, ChunkWritten, EndWith, NotShorter;
    var v := s.v;
    var WriteChunk(p, c, n, bytes, ok) := op;
    EndWithGood(v, p, c, n, bytes, s.pend);
    if o in v.files {
      PutChunkTracks(v, p, c, n, bytes, EndWith(v, p, c, n), ok, s.pend, o, x);
    } else {
      NoFileAfter(v, p, c, n, bytes, EndWith(v, p, c, n), ok, s.pend, o, x);
    }
  }

  lemma CutTailTracks(v: Dev, p: nat, size: nat, tail: Bytes, o: nat, x: Trace)
    requires FlashLog.Inv(v, {}, Cutting(p, size)) && Tracks(v, Cutting(p, size), o, x)
    requires p in v.files && v.chunkBytes > 0 && size <= v.files[p].end
    ensures var (w, done) := FlashOps.CutTail(v, p, size, tail); var k := ChunksIn(v.chunkBytes, size);
      Tracks(w, Cutting(p, size), o,
        if o == p && done && Ragged(v.chunkBytes, size)
        then ChunkWritten(x, v.chunkBytes, k, size - Base(v.chunkBytes, k)) else x)
  {
    hide FlashLog.Inv, PutChunk, GoodWrite, NoNewHole, Tracks, ChunkWritten, Ragged, Base;
    if Ragged(v.chunkBytes, size) {
      TailGood(v, p, size, tail, Cutting(p, size));
      var k := ChunksIn(v.chunkBytes, size);
      var n := size - Base(v.chunkBytes, k);
      if o in v.files {
        PutChunkTracks(v, p, k, n, tail, v.files[p].end, true, Cutting(p, size), o, x);
      } else {
        NoFileAfter(v, p, k, n, tail, v.files[p].end, true, Cutting(p, size), o, x);
      }
    }
  }

  lemma {:induction false} StepTracks(s: Sys, op: FlashRuns.Op, o: nat, x: Trace)
    requires FlashRuns.Inv(s) && Allowed(s, op) && Tracks(s.v, s.pend, o, x)
    ensures Tracks(Step(s, op).v, Step(s, op).pend, o, Noted(s, op, o, x))
  {
    hide FlashLog.Inv, PutHeader, PutChunk, SkipRest, GcSafe, GcEnd, CutReady, Base, Tracks, HeaderWritten, Ragged;
    hide NotShorter, GcCopy, InUse, Started, CutOne, EndWith, FlashOps.CutTail, ChunkWritten;
    var v, pend := s.v, s.pend;
    match op
    case CreateFile(p, hdr, ok) => PutHeaderTracks(v, p, false, hdr, ok, pend, pend, o, x);
    case FlushHeader(p, hdr) => PutHeaderTracks(v, p, false, hdr, true, pend, pend, o, x);
    case HoleHeader(p, hdr) =>
      PutHeaderTracks(v, p, true, hdr, true, pend, pend, o, x);
      PendTracks(Step(s, op).v, pend, Step(s, op).pend, o, Noted(s, op, o, x));
    case WriteChunk(_, _, _, _, _) => WriteTracks(s, op, o, x);
    case CacheChunk(p, c, n) => RamTracks(v, Step(s, op).v, pend, o, x);
    case EndWrite(p) =>
      RamTracks(v, Step(s, op).v, pend, o, x);
      PendTracks(Step(s, op).v, pend, Step(s, op).pend, o, x);
    case GrowSize(p, size) => RamTracks(v, Step(s, op).v, pend, o, x);
    case GrowHeader(p, hdr) =>
      PutHeaderTracks(v, p, false, hdr, true, pend, pend, o, x);
      PendTracks(Step(s, op).v, pend, Nothing, o, Noted(s, op, o, x));
    case BeginCut(p, size) => PendTracks(v, pend, Cutting(p, size), o, x);
    case CutChunk(c) => CutOneTracks(v, pend.obj, c, pend.size, o, x);
    case CutTail(tail) => CutTailTracks(v, pend.obj, pend.size, tail, o, x);
    case CutSize => RamTracks(v, Step(s, op).v, pend, o, x);
    case SealCut(hdr) => PutHeaderTracks(v, pend.obj, false, hdr, true, pend, Nothing, o, x);
    case GcStart(i) => StartedTracks(v, i, pend, o, x);
    case GcMove(a) => GcCopyTracks(v, a, pend, o, x);
    case GcFinish(i) => RetableTracks(v, GcEnd(v.t, i), pend, o, x);
    case SkipBlock => RetableTracks(v, SkipRest(v.t), pend, o, x);
  }

  /** Only a truncation that starts changes what is tracked. */
  lemma PendTracks(v: Dev, pend: Pending, after: Pending, o: nat, x: Trace)
    requires Tracks(v, pend, o, x) && !pend.Cutting?
    ensures Tracks(v, after, o, x)
  {
  }

  lemma {:induction false} RunTracks(s: Sys, ops: seq<FlashRuns.Op>, w: Sys, o: nat, x: Trace)
    requires FlashRuns.Inv(s) && FlashRuns.Run(s, ops, w) && Tracks(s.v, s.pend, o, x)
    ensures Tracks(w.v, w.pend, o, Follow(s, ops, o, x))
    decreases |ops|
  {
    hide FlashRuns.Inv, Step, Allowed, Tracks, Noted;
    if ops != [] {
      StepInv(s, ops[0]);
      StepTracks(s, ops[0], o, x);
      RunTracks(Step(s, ops[0]), ops[1..], w, o, Noted(s, ops[0], o, x));
    }
  }

  // ----- what a mount finds after a run -----

  const UNTRACED := Trace({}, 0)

  lemma TracksFinds(v: Dev, pend: Pending, o: nat, x: Trace)
    requires Tracks(v, pend, o, x) && o in v.files && !Cuts(pend, o)
    ensures Reads(v, o, x.end) && Kept(v, o) == v.files[o].chunks - x.cut && x.cut <= v.files[o].chunks.Keys
    ensures x.cut == {} <==> forall c :: c in v.files[o].chunks ==> !CutOff(v, o, v.files[o].chunks[c])
  {
    hide Reads, CutOff;
    forall c ensures c in x.cut <==> CutAt(v, o, c) { }
    forall c | c in v.files[o].chunks ensures c in x.cut <==> CutOff(v, o, v.files[o].chunks[c]) {
      assert c in x.cut <==> CutAt(v, o, c);
    }
  }

  /** After any run from a blank device a scan of the flash, newest page first, finds every file not being
      truncated and without chunks in the cache alone: its newest header, and of its size and chunks
      exactly what the order of the writes says. The file is back whole if and only if that is all. */
  lemma MountAfterRun(cpb: nat, n: nat, chunkBytes: nat, ops: seq<FlashRuns.Op>, w: Sys, log: seq<Addr>, o: nat)
    requires cpb > 0 && chunkBytes > 0 && FlashRuns.Run(Blank(cpb, n, chunkBytes), ops, w) && ScanOrder(w.v.flash, log)
    requires o in w.v.files && !Cuts(w.pend, o) && w.v.files[o].late == {}
    ensures var x := Follow(Blank(cpb, n, chunkBytes), ops, o, UNTRACED);
      var s := ScanLog(w.v.flash, log, w.v.chunkBytes);
      && o in s && s[o].hdr == Some(w.v.files[o].hdr)
      && s[o].size == x.end && s[o].chunks == w.v.files[o].chunks - x.cut
      && (Recovered(w.v, s, o) <==> x.cut == {} && x.end == w.v.files[o].size)
  {
    hide FlashLog.Inv, ScanLog, FlashRuns.Run, Follow, Tracks, Reads, Kept, CutOff;
    var s0 := Blank(cpb, n, chunkBytes);
    var x := Follow(s0, ops, o, UNTRACED);
    BlankInv(cpb, n, chunkBytes);
    BlankTracks(cpb, n, chunkBytes, o);
    RunInvariant(s0, ops, w);
    RunTracks(s0, ops, w, o, UNTRACED);
    TracksFinds(w.v, w.pend, o, x);
    MountFinds(w.v, w.pend, log, o, x.end);
    RecoversIff(w.v, ScanLog(w.v.flash, log, w.v.chunkBytes), o, x.end);
  }

  lemma BlankTracks(cpb: nat, n: nat, chunkBytes: nat, o: nat)
    ensures Tracks(Blank(cpb, n, chunkBytes).v, Nothing, o, UNTRACED)
  {
  }

  /** And it finds no other files. */
  lemma MountFindsFiles(cpb: nat, n: nat, chunkBytes: nat, ops: seq<FlashRuns.Op>, w: Sys, log: seq<Addr>)
    requires cpb > 0 && chunkBytes > 0 && FlashRuns.Run(Blank(cpb, n, chunkBytes), ops, w) && ScanOrder(w.v.flash, log)
    ensures ScanLog(w.v.flash, log, w.v.chunkBytes).Keys == w.v.files.Keys
  {
    hide FlashLog.Inv, ScanLog, FlashRuns.Run, Index, Hdrs, Pages;
    BlankInv(cpb, n, chunkBytes);
    RunInvariant(Blank(cpb, n, chunkBytes), ops, w);
    StepFacts(w.v, w.pend);
    ScanFindsOnlyFiles(w.v, log);
    forall o | o in w.v.files ensures o in ScanLog(w.v.flash, log, w.v.chunkBytes) {
      FilesSeen(w.v, log, o);
      ScanKeys(w.v.flash, log, w.v.chunkBytes, o);
    }
  }

  /** The order in which the mount sorts and walks the blocks is such an order while the sequence
      numbers stay below 2^31. */
  lemma MountInSortedOrder(cpb: nat, n: nat, chunkBytes: nat, ops: seq<FlashRuns.Op>, w: Sys, o: nat)
    requires cpb > 0 && chunkBytes > 0 && FlashRuns.Run(Blank(cpb, n, chunkBytes), ops, w)
    requires o in w.v.files && !Cuts(w.pend, o) && w.v.files[o].late == {} && w.v.t.seqNumber < 0x8000_0000
    ensures var x := Follow(Blank(cpb, n, chunkBytes), ops, o, UNTRACED);
      var log := ScanLogOf(w.v.flash, |w.v.t.blocks|, w.v.t.cpb);
      && ScanOrder(w.v.flash, log)
      && (Recovered(w.v, ScanLog(w.v.flash, log, w.v.chunkBytes), o) <==> x.cut == {} && x.end == w.v.files[o].size)
  {
    hide FlashLog.Inv, ScanLog, FlashRuns.Run, ScanLogOf, Scannable, Follow, Recovered;
    BlankInv(cpb, n, chunkBytes);
    RunInvariant(Blank(cpb, n, chunkBytes), ops, w);
    InvScannable(w.v, w.pend);
    ScansInOrder(w.v.flash, |w.v.t.blocks|, w.v.t.cpb);
    MountAfterRun(cpb, n, chunkBytes, ops, w, ScanLogOf(w.v.flash, |w.v.t.blocks|, w.v.t.cpb), o);
  }

  lemma InvScannable(v: Dev, pend: Pending)
    requires FlashLog.Inv(v, {}, pend) && v.t.seqNumber < 0x8000_0000
    ensures Scannable(v.flash, |v.t.blocks|, v.t.cpb)
  {
    hide Index, Hdrs, Live, Newest, Uncut, DeadKnown, Sizes;
    DeviceScannable(v);
  }

  // ----- when that is everything -----

  /** The size in RAM passes the start of every chunk that has been written. */
  predicate Reaches(v: Dev, o: nat) {
    o in v.files ==> forall c :: c in v.files[o].chunks ==> Base(v.chunkBytes, c) < v.files[o].size
  }

  /** So it is between calls; within a call it is unless a chunk past the old end has been written. */
  lemma RestReaches(v: Dev, pend: Pending, o: nat)
    requires FlashLog.Inv(v, {}, pend) && AtRest(v, o)
    ensures Reaches(v, o)
  {
    InvSound(v, {}, pend);
    hide FlashLog.Inv, BlockTable.Inv, Pages, Hdrs;
    forall c | c in v.files[o].chunks ensures Base(v.chunkBytes, c) < v.files[o].size {
      assert Mapped(v.files, o, c, v.files[o].chunks[c]) && Entry(v, o, c, v.files[o].chunks[c]);
    }
  }

  /** Whether the last header of file `o` was written when the size reached every chunk; `b` before the run. */
  predicate LastHeaderReaches(s: Sys, ops: seq<FlashRuns.Op>, o: nat, b: bool)
    decreases |ops|
  {
    if ops == [] || !Allowed(s, ops[0]) then b
    else LastHeaderReaches(Step(s, ops[0]), ops[1..], o, if WritesHeader(s, ops[0], o) then Reaches(s.v, o) else b)
  }

  lemma NotedCut(s: Sys, op: FlashRuns.Op, o: nat, x: Trace)
    requires Allowed(s, op)
    ensures WritesHeader(s, op, o) ==> (Noted(s, op, o, x).cut == {} <==> Reaches(s.v, o))
    ensures !WritesHeader(s, op, o) ==> Noted(s, op, o, x).cut <= x.cut
  {
    hide WritesHeader, WritesChunk, Allowed, Base;
    if o in s.v.files {
      forall c | c in s.v.files[o].chunks
        ensures c in HeaderWritten(s.v, o).cut <==> s.v.files[o].size <= Base(s.v.chunkBytes, c) { }
    }
  }

  /** No chunk is lost when the last header was written at such a time: outside a write call that has
      already gone past the old end. */
  lemma {:induction false} NoneLost(s: Sys, ops: seq<FlashRuns.Op>, w: Sys, o: nat, x: Trace, b: bool)
    requires FlashRuns.Run(s, ops, w) && (b ==> x.cut == {}) && LastHeaderReaches(s, ops, o, b)
    ensures Follow(s, ops, o, x).cut == {}
    decreases |ops|
  {
    hide Step, Allowed, Noted, WritesHeader, Reaches;
    if ops != [] {
      NotedCut(s, ops[0], o, x);
      NoneLost(Step(s, ops[0]), ops[1..], w, o, Noted(s, ops[0], o, x),
               if WritesHeader(s, ops[0], o) then Reaches(s.v, o) else b);
    }
  }

  /** A chunk once cut off stays lost until it, or the header, is written again. */
  predicate LeavesAlone(s: Sys, ops: seq<FlashRuns.Op>, o: nat, c: nat)
    decreases |ops|
  {
    ops == [] || (Allowed(s, ops[0]) && !WritesHeader(s, ops[0], o)
      && (WritesChunk(s, ops[0], o).Some? ==> WritesChunk(s, ops[0], o).value.0 != c)
      && !(ops[0].CutChunk? && s.pend.obj == o && ops[0].id == c)
      && LeavesAlone(Step(s, ops[0]), ops[1..], o, c))
  }

  lemma {:induction false} StaysLost(s: Sys, ops: seq<FlashRuns.Op>, o: nat, c: nat, x: Trace)
    requires LeavesAlone(s, ops, o, c) && c in x.cut
    ensures c in Follow(s, ops, o, x).cut
    decreases |ops|
  {
    hide Step, Allowed, WritesHeader, WritesChunk;
    if ops != [] { StaysLost(Step(s, ops[0]), ops[1..], o, c, Noted(s, ops[0], o, x)); }
  }

  /** The file can be read back as it is in RAM. */
  predicate Whole(s: Sys, o: nat, x: Trace) { AtRest(s.v, o) && x == Trace({}, s.v.files[o].size) }

  /** Flushing a file makes it so, whatever happened before. */
  lemma FlushMakesWhole(s: Sys, hdr: Bytes, o: nat, x: Trace)
    requires FlashRuns.Inv(s) && Allowed(s, FlushHeader(o, hdr))
    requires AtRest(s.v, o) && PutHeader(s.v, o, false, hdr, true).1
    ensures Whole(Step(s, FlushHeader(o, hdr)), o, Noted(s, FlushHeader(o, hdr), o, x))
  {
    hide PutHeader, Base, FlashLog.Inv;
    RestReaches(s.v, s.pend, o);
    PutHeaderShape(s.v, o, false, hdr, true);
  }

  // ----- a flushed file survives -----

  /** The step is a collection or about another file. */
  predicate Spares(s: Sys, op: FlashRuns.Op, o: nat) {
    match op
    case CreateFile(p, _, _) => p != o
    case FlushHeader(p, _) => p != o
    case HoleHeader(p, _) => p != o
    case WriteChunk(p, _, _, _, _) => p != o
    case CacheChunk(p, _, _) => p != o
    case EndWrite(p) => p != o
    case GrowSize(p, _) => p != o
    case GrowHeader(p, _) => p != o
    case BeginCut(p, _) => p != o
    case CutChunk(_) => s.pend.Cutting? && s.pend.obj != o
    case CutTail(_) => s.pend.Cutting? && s.pend.obj != o
    case CutSize => s.pend.Cutting? && s.pend.obj != o
    case SealCut(_) => s.pend.Cutting? && s.pend.obj != o
    case _ => true
  }

  predicate SparesAll(s: Sys, ops: seq<FlashRuns.Op>, o: nat)
    decreases |ops|
  {
    ops == [] || (Allowed(s, ops[0]) && Spares(s, ops[0], o) && SparesAll(Step(s, ops[0]), ops[1..], o))
  }

  /** Sizes, and that nothing waits in the cache. */
  predicate SameRam(v: Dev, w: Dev, o: nat) {
    && SameSize(v, w, o) && w.files[o].late <= v.files[o].late
  }

  lemma PutChunkRam(v: Dev, p: nat, c: nat, n: nat, bytes: Bytes, end: nat, ok: bool, o: nat)
    requires p in v.files && o in v.files && (o == p ==> end == v.files[o].end)
    ensures SameRam(v, PutChunk(v, p, c, n, bytes, end, ok).0, o)
  {
    hide AllocChunk, Delete;
    var (u, r) := AllocChunk(v.t, ok);
    if r.Some? {
      var w := LinkData(v, u, r.value, Data(p, c, n, u.seqNumber, bytes), end);
      if c in v.files[p].chunks { DeleteShape(w, v.files[p].chunks[c]); }
    }
  }

  lemma PutHeaderRam(v: Dev, p: nat, shrink: bool, bytes: Bytes, ok: bool, o: nat)
    requires o in v.files
    ensures SameRam(v, PutHeader(v, p, shrink, bytes, ok).0, o)
  {
    hide AllocChunk, Delete;
    var (u, r) := AllocChunk(v.t, ok);
    if r.Some? && p in v.files {
      DeleteShape(LinkHeader(v, u, r.value, Header(p, SizeIn(v, p), shrink, u.seqNumber, bytes)), v.files[p].hdr);
    }
  }

  lemma CutOneRam(v: Dev, p: nat, c: nat, o: nat)
    requires p in v.files && c in v.files[p].chunks && o in v.files
    ensures SameRam(v, CutOne(v, p, c), o)
  {
    DeleteShape(Unlink(v, p, c), v.files[p].chunks[c]);
  }

  lemma GcCopyRam(v: Dev, a: Addr, o: nat)
    requires InUse(v, a) && o in v.files
    ensures SameRam(v, GcCopy(v, a).0, o)
  {
    hide PutChunk, PutHeader, SameRam;
    match v.flash[a]
    case Data(p, c, n, _, bytes) => PutChunkRam(v, p, c, n, bytes, v.files[p].end, true, o);
    case Header(p, _, _, _, bytes) => PutHeaderRam(v, p, false, bytes, true, o);
  }

  lemma SparedRam(s: Sys, op: FlashRuns.Op, o: nat)
    requires Allowed(s, op) && Spares(s, op, o) && o in s.v.files && !Cuts(s.pend, o)
    ensures SameRam(s.v, Step(s, op).v, o) && !Cuts(Step(s, op).pend, o)
  {
    hide PutHeader, PutChunk, SkipRest, GcSafe, GcEnd, CutReady, Base, NotShorter, GcCopy, InUse, CutOne, EndWith;
    var v := s.v;
    match op
    case CreateFile(p, hdr, ok) => PutHeaderRam(v, p, false, hdr, ok, o);
    case FlushHeader(p, hdr) => PutHeaderRam(v, p, false, hdr, true, o);
    case HoleHeader(p, hdr) => PutHeaderRam(v, p, true, hdr, true, o);
    case WriteChunk(p, c, n, bytes, ok) => PutChunkRam(v, p, c, n, bytes, EndWith(v, p, c, n), ok, o);
    case GrowHeader(p, hdr) => PutHeaderRam(v, p, false, hdr, true, o);
    case CutChunk(c) => CutOneRam(v, s.pend.obj, c, o);
    case CutTail(tail) =>
      var k := ChunksIn(v.chunkBytes, s.pend.size);
      if Ragged(v.chunkBytes, s.pend.size) {
        TailGood(v, s.pend.obj, s.pend.size, tail, s.pend);
        PutChunkRam(v, s.pend.obj, k, s.pend.size - Base(v.chunkBytes, k), tail, v.files[s.pend.obj].end, true, o);
      }
    case SealCut(hdr) => PutHeaderRam(v, s.pend.obj, false, hdr, true, o);
    case GcMove(a) => GcCopyRam(v, a, o);
    case _ =>
  }

  lemma SparedWhole(s: Sys, op: FlashRuns.Op, o: nat, x: Trace)
    requires FlashRuns.Inv(s) && Allowed(s, op) && Spares(s, op, o) && Whole(s, o, x) && !Cuts(s.pend, o)
    ensures Whole(Step(s, op), o, Noted(s, op, o, x))
  {
    SparedRam(s, op, o);
    RestReaches(s.v, s.pend, o);
    NotedCut(s, op, o, x);
    SparedEnd(s, op, o, x);
  }

  lemma SparedEnd(s: Sys, op: FlashRuns.Op, o: nat, x: Trace)
    requires FlashRuns.Inv(s) && Allowed(s, op) && Spares(s, op, o) && Whole(s, o, x) && !Cuts(s.pend, o)
    ensures Noted(s, op, o, x).end == s.v.files[o].size
  {
    hide FlashLog.Inv, PutHeader, PutChunk, Base, EndWith, GcCopy, GcSafe, CutReady, NotShorter, FlashOps.CutTail;
    if op.GcMove? && s.v.flash[op.page].Data? && s.v.flash[op.page].obj == o { MovedEnd(s.v, s.pend, op.page); }
  }

  lemma MovedEnd(v: Dev, pend: Pending, a: Addr)
    requires FlashLog.Inv(v, {}, pend) && InUse(v, a) && v.flash[a].Data?
    ensures Base(v.chunkBytes, v.flash[a].id) + v.flash[a].nBytes <= v.files[v.flash[a].obj].end
  {
    InvSound(v, {}, pend);
    hide FlashLog.Inv, BlockTable.Inv, Pages, Hdrs;
    assert Mapped(v.files, v.flash[a].obj, v.flash[a].id, a) && Entry(v, v.flash[a].obj, v.flash[a].id, a);
  }

  lemma {:induction false} SparedRun(s: Sys, ops: seq<FlashRuns.Op>, w: Sys, o: nat, x: Trace)
    requires FlashRuns.Inv(s) && FlashRuns.Run(s, ops, w) && SparesAll(s, ops, o) && Whole(s, o, x)
    requires !Cuts(s.pend, o) && s.v.files[o].late == {}
    ensures Whole(w, o, Follow(s, ops, o, x)) && !Cuts(w.pend, o) && w.v.files[o].late == {}
    decreases |ops|
  {
    hide FlashRuns.Inv, Step, Allowed, Noted, Spares;
    if ops != [] {
      StepInv(s, ops[0]);
      SparedRam(s, ops[0], o);
      SparedWhole(s, ops[0], o, x);
      SparedRun(Step(s, ops[0]), ops[1..], w, o, Noted(s, ops[0], o, x));
    }
  }

  /** Once a file has been flushed, nothing but its own next change can keep a mount from finding it whole,
      neither what happened before, nor collections, nor work on other files. */
  lemma FlushedSurvives(cpb: nat, n: nat, chunkBytes: nat, ops: seq<FlashRuns.Op>, s: Sys, hdr: Bytes,
      rest: seq<FlashRuns.Op>, w: Sys, log: seq<Addr>, o: nat)
    requires cpb > 0 && chunkBytes > 0 && FlashRuns.Run(Blank(cpb, n, chunkBytes), ops, s)
    requires Allowed(s, FlushHeader(o, hdr)) && AtRest(s.v, o) && s.v.files[o].late == {}
    requires PutHeader(s.v, o, false, hdr, true).1
    requires FlashRuns.Run(Step(s, FlushHeader(o, hdr)), rest, w) && SparesAll(Step(s, FlushHeader(o, hdr)), rest, o)
    requires ScanOrder(w.v.flash, log)
    ensures Recovered(w.v, ScanLog(w.v.flash, log, w.v.chunkBytes), o)
  {
    hide FlashLog.Inv, ScanLog, FlashRuns.Run, Follow, Tracks, Reads, Kept, CutOff, PutHeader, Noted, SparesAll, Base;
    var op := FlushHeader(o, hdr);
    var y := Follow(Blank(cpb, n, chunkBytes), ops, o, UNTRACED);
    var t, x := Step(s, op), Noted(s, op, o, y);
    BlankInv(cpb, n, chunkBytes);
    BlankTracks(cpb, n, chunkBytes, o);
    RunInvariant(Blank(cpb, n, chunkBytes), ops, s);
    RunTracks(Blank(cpb, n, chunkBytes), ops, s, o, UNTRACED);
    StepInv(s, op);
    StepTracks(s, op, o, y);
    FlushMakesWhole(s, hdr, o, y);
    PutHeaderRam(s.v, o, false, hdr, true, o);
    RunInvariant(t, rest, w);
    RunTracks(t, rest, w, o, x);
    SparedRun(t, rest, w, o, x);
    WholeFound(w, log, o, Follow(t, rest, o, x));
  }

  lemma WholeFound(w: Sys, log: seq<Addr>, o: nat, x: Trace)
    requires FlashRuns.Inv(w) && Tracks(w.v, w.pend, o, x) && Whole(w, o, x) && ScanOrder(w.v.flash, log)
    requires !Cuts(w.pend, o) && w.v.files[o].late == {}
    ensures Recovered(w.v, ScanLog(w.v.flash, log, w.v.chunkBytes), o)
  {
    hide FlashLog.Inv, ScanLog, Tracks, Reads, Kept, CutOff;
    TracksFinds(w.v, w.pend, o, x);
    MountFinds(w.v, w.pend, log, o, x.end);
    RecoversIff(w.v, ScanLog(w.v.flash, log, w.v.chunkBytes), o, x.end);
  }
}
