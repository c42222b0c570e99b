/** The device as the source has it: an object updated in place, each method proved to do
    what the corresponding function of the log model says. */
module FlashDevice {
  import opened Basics
  import opened BlockTable
  import opened FlashLog
  import opened FlashOps
  import opened MountScan
  import opened FlashRuns
  import opened FlashRecovery
  import opened ScanOrdering

  lemma EmptyScan(f: map<Addr, Page>, d: nat)
    ensures ScanLog(f, [], d) == map[]
  {
  }

  lemma ScanSnoc(f: map<Addr, Page>, log: seq<Addr>, a: Addr, d: nat)
    requires (forall x :: x in log ==> x in f) && a in f
    ensures ScanLog(f, log + [a], d) == ScanPage(ScanLog(f, log, d), a, f[a], d)
  {
    assert (log + [a])[..|log|] == log;
  }

  predicate DirtyFull(b: BlockInfo, cpb: nat) {
    b.state == Full && b.pagesInUse - b.softDel < cpb
  }

  class Device {
    const tab: BlockDev
    const chunkBytes: nat
    var flash: map<Addr, Page>
    var files: map<nat, File>

    ghost function View(): Dev
      reads this, tab
    {
      Dev(tab.View(), flash, files, chunkBytes)
    }

    constructor (cpb: nat, n: nat, chunkBytes: nat)
      ensures View() == Blank(cpb, n, chunkBytes).v && fresh(tab)
    {
      tab := new BlockDev(cpb, n);
      this.chunkBytes := chunkBytes;
      flash, files := map[], map[];
    }

    method ChunkDel(a: Addr)
      modifies this, tab
      ensures View() == Delete(old(View()), a)
    {
      if a.block >= |tab.blocks| || !MayHoldData(tab.blocks[a.block].state) { return; }
      tab.DeleteChunk(a, true);
      if tab.blocks[a.block].state == Empty {
        flash := map x | x in flash && x.block != a.block :: flash[x];
      }
    }

    /** yaffs_wr_data_obj; `end` is where the file will then end. */
    method WrDataObj(o: nat, c: nat, n: nat, bytes: Bytes, end: nat, reserveOk: bool) returns (ok: bool)
      requires o in files
      modifies this, tab
      ensures (View(), ok) == PutChunk(old(View()), o, c, n, bytes, end, reserveOk)
    {
      var f := files[o];
      var r := tab.Alloc(reserveOk);
      if r.None? { return false; }
      flash := flash[r.value := Data(o, c, n, tab.seqNumber, bytes)];
      files := files[o := f.(chunks := f.chunks[c := r.value], late := f.late - {c}, end := end)];
      if c in f.chunks { ChunkDel(f.chunks[c]); }
      ok := true;
    }

    /** yaffs_update_oh: the header records the size in RAM. */
    method UpdateOh(o: nat, shrink: bool, bytes: Bytes, reserveOk: bool) returns (ok: bool)
      modifies this, tab
      ensures (View(), ok) == PutHeader(old(View()), o, shrink, bytes, reserveOk)
    {
      var prev := if o in files then Some(files[o].hdr) else None;
      var size := if o in files then files[o].size else 0;
      var r := tab.Alloc(reserveOk);
      if r.None? { return false; }
      flash := flash[r.value := Header(o, size, shrink, tab.seqNumber, bytes)];
      files := files[o := if o in files then files[o].(hdr := r.value) else File(r.value, 0, 0, {}, map[])];
      if prev.Some? { ChunkDel(prev.value); }
      if shrink && r.value.block < |tab.blocks| {
        tab.blocks := tab.blocks[r.value.block := tab.blocks[r.value.block].(hasShrinkHdr := true)];
      }
      ok := true;
    }

    method GcProcessChunk(a: Addr) returns (ok: bool)
      requires InUse(View(), a)
      modifies this, tab
      ensures (View(), ok) == GcCopy(old(View()), a)
    {
      match flash[a]
      case Data(o, c, n, _, bytes) => ok := WrDataObj(o, c, n, bytes, files[o].end, true);
      case Header(o, _, _, _, bytes) => ok := UpdateOh(o, false, bytes, true);
    }

    /** yaffs_calc_oldest_dirty_seq */
    method OldestDirtySeq() returns (oldest: Option<nat>)
      ensures oldest.None? ==> forall b :: 0 <= b < |tab.blocks| ==>
        !(DirtyFull(tab.blocks[b], tab.cpb) && tab.blocks[b].seqNumber <= tab.seqNumber)
      ensures oldest.Some? ==> forall b :: 0 <= b < |tab.blocks| && DirtyFull(tab.blocks[b], tab.cpb) ==>
        oldest.value <= tab.blocks[b].seqNumber
    {
      oldest := None;
      var best := tab.seqNumber + 1;
      var i := 0;
      while i < |tab.blocks|
        invariant 0 <= i <= |tab.blocks|
        invariant if oldest.None? then best == tab.seqNumber + 1 else best == oldest.value <= tab.seqNumber
        invariant forall b :: 0 <= b < i && DirtyFull(tab.blocks[b], tab.cpb) ==> best <= tab.blocks[b].seqNumber
      {
        if DirtyFull(tab.blocks[i], tab.cpb) && tab.blocks[i].seqNumber < best {
          best := tab.blocks[i].seqNumber;
          oldest := Some(best);
        }
        i := i + 1;
      }
    }

    /** yaffs_block_ok_for_gc: when it lets a FULL block through, collecting it is safe. */
    method BlockOkForGc(i: nat) returns (ok: bool)
      requires i < |tab.blocks| && SeqNumbers(tab.View())
      requires forall b :: 0 <= b < |tab.blocks| ==> tab.blocks[b].state != Collecting
      ensures ok ==> GcSafe(tab.View(), i)
    {
      if !tab.blocks[i].hasShrinkHdr { return true; }
      var oldest := OldestDirtySeq();
      ok := oldest.Some? && tab.blocks[i].seqNumber <= oldest.value;
    }

    /** The copy loop of yaffs_gc_block. */
    method CopyLiveChunks(i: nat, gcChunk: nat, maxCopies: nat)
      modifies this, tab
      ensures View() == GcLoop(old(View()), i, gcChunk, maxCopies).0
    {
      hide GcCopy;
      var page, copies, ok := gcChunk, maxCopies, true;
      while ok && page < tab.cpb && copies > 0 && i < |tab.blocks| && tab.blocks[i].state == Collecting
        invariant GcLoop(old(View()), i, gcChunk, maxCopies).0 ==
          if ok then GcLoop(View(), i, page, copies).0 else View()
        decreases ok, tab.cpb - page
      {
        var a := Addr(i, page);
        page := page + 1;
        if a in tab.bits && a in flash && flash[a].obj in files && Live(a) {
          copies := copies - 1;
          ok := GcProcessChunk(a);
        }
      }
    }

    /** yaffs2_find_refresh_block: the oldest FULL block is always safe to collect. */
    method FindRefreshBlock() returns (r: Option<nat>)
      requires SeqNumbers(tab.View())
      requires forall b :: 0 <= b < |tab.blocks| ==> tab.blocks[b].state != Collecting
      ensures r.Some? ==> GcSafe(tab.View(), r.value) && tab.blocks[r.value].state == Full
    {
      r := None;
      var b := 0;
      while b < |tab.blocks|
        invariant 0 <= b <= |tab.blocks|
        invariant r.Some? ==> r.value < b && tab.blocks[r.value].state == Full
        invariant forall c :: 0 <= c < b && tab.blocks[c].state == Full ==>
          r.Some? && tab.blocks[r.value].seqNumber <= tab.blocks[c].seqNumber
      {
        if tab.blocks[b].state == Full && (r.None? || tab.blocks[b].seqNumber < tab.blocks[r.value].seqNumber) {
          r := Some(b);
        }
        b := b + 1;
      }
    }

    method CollectBlock(i: nat, gcChunk: nat, maxCopies: nat)
      requires i < |tab.blocks|
      modifies this, tab
      ensures View() == GcBlock(old(View()), i, gcChunk, maxCopies)
    {
      var b := tab.blocks[i];
      tab.blocks := tab.blocks[i :=
          b.(state := if b.state == Full then Collecting else b.state, hasShrinkHdr := false)];
      ghost var begun := View();
      assert begun == old(View()).(t := GcBegin(old(View()).t, i));
      if tab.blocks[i].pagesInUse == 0 && tab.blocks[i].state == Collecting {
        tab.BlockBecameDirty(i, true);
        flash := map x | x in flash && x.block != i :: flash[x];
        assert View() == Erase(begun, i);
      } else {
        CopyLiveChunks(i, gcChunk, maxCopies);
      }
      if i < |tab.blocks| && tab.blocks[i].state == Collecting {
        tab.blocks := tab.blocks[i := tab.blocks[i].(state := Full)];
      }
    }

    predicate Live(a: Addr)
      requires a in flash && flash[a].obj in files
      reads this, tab
    {
      match flash[a]
      case Data(o, c, _, _, _) => Mapped(files, o, c, a)
      case Header(o, _, _, _, _) => files[o].hdr == a
    }

    method PruneChunks(o: nat, last: nat, size: nat)
      requires o in files
      modifies this, tab
      ensures View() == Prune(old(View()), o, last, size)
    {
      var i := last;
      while i > 0 && Base(chunkBytes, i) >= size
        invariant o in files && Prune(old(View()), o, last, size) == Prune(View(), o, i, size)
      {
        if i in files[o].chunks {
          var a := files[o].chunks[i];
          files := files[o := files[o].(chunks := files[o].chunks - {i})];
          ChunkDel(a);
        }
        i := i - 1;
      }
    }

    /** The loop of yaffs_do_file_wr and the assignment after it. */
    method DoFileWr(o: nat, parts: seq<Part>) returns (ok: bool)
      requires o in files
      modifies this, tab
      ensures var (w, done) := WriteParts(old(View()), o, parts); View() == FlashOps.EndWrite(w, o) && ok == done
    {
      hide PutChunk;
      ok := true;
      var i := 0;
      assert parts[0..] == parts;
      while ok && i < |parts|
        invariant 0 <= i <= |parts|
        invariant ok ==> o in files && WriteParts(old(View()), o, parts) == WriteParts(View(), o, parts[i..])
        invariant !ok ==> WriteParts(old(View()), o, parts) == (View(), false)
        decreases ok, |parts| - i
      {
        var p := parts[i];
        assert parts[i..][1..] == parts[i + 1..];
        var reach := Base(chunkBytes, p.id) + p.nBytes;
        ok := WrDataObj(o, p.id, p.nBytes, p.bytes, if files[o].end < reach then reach else files[o].end, p.reserveOk);
        if o !in files { ok := false; }
        i := i + 1;
      }
      if o in files { files := files[o := files[o].(size := files[o].end)]; }
    }

    /** yaffs_wr_file without a cache */
    method WrFile(o: nat, offset: nat, parts: seq<Part>, hdr: Bytes) returns (ok: bool)
      requires o in files
      modifies this, tab
      ensures (View(), ok) == Write(old(View()), o, offset, parts, hdr)
    {
      hide PutHeader, WriteParts;
      ok := true;
      if offset > files[o].size { ok := UpdateOh(o, true, hdr, true); }
      if !ok || o !in files { return false; }
      ok := DoFileWr(o, parts);
    }

    /** yaffs_resize_file upwards */
    method ResizeFileUp(o: nat, size: nat, hdr: Bytes) returns (ok: bool)
      requires o in files
      modifies this, tab
      ensures (View(), ok) == Extend(old(View()), o, size, hdr)
    {
      hide PutHeader;
      ok := UpdateOh(o, true, hdr, true);
      if !ok || o !in files { return false; }
      files := files[o := files[o].(size := size, end := size)];
      ok := UpdateOh(o, false, hdr, true);
    }

    /** yaffs_resize_file_down and the header that follows it. */
    method ResizeFileDown(o: nat, size: nat, tail: Bytes, hdr: Bytes) returns (ok: bool)
      requires o in files && chunkBytes > 0
      modifies this, tab
      ensures (View(), ok) == Truncate(old(View()), o, size, tail, hdr)
    {
      hide PutChunk, PutHeader, Prune;
      var last := ChunksIn(chunkBytes, size);
      PruneChunks(o, ChunksIn(chunkBytes, files[o].size), size);
      if o !in files { return false; }
      ok := true;
      if Ragged(chunkBytes, size) {
        ok := WrDataObj(o, last, size - Base(chunkBytes, last), tail, files[o].end, true);
      }
      if !ok || o !in files { return false; }
      files := files[o := files[o].(size := size, end := size)];
      ok := UpdateOh(o, false, hdr, true);
    }

    /** The blocks that need scanning, as the first loop of yaffs2_scan_backwards lists them. */
    method BlocksToScan() returns (index: seq<BlockIndex>)
      ensures index == ScanIndex(flash, |tab.blocks|)
    {
      index := [];
      var blk := 0;
      while blk < |tab.blocks|
        invariant 0 <= blk <= |tab.blocks| && index == ScanIndex(flash, blk)
      {
        if Addr(blk, 0) in flash {
          var q := flash[Addr(blk, 0)].seqNumber;
          if LOWEST_SEQUENCE <= q < HIGHEST_SEQUENCE { index := index + [BlockIndex(q, blk)]; }
        }
        blk := blk + 1;
      }
    }

    /** One block, from its last page to its first. */
    method ScanBlock(before: Scan, b: nat, ghost log: seq<Addr>) returns (s: Scan)
      requires (forall a :: a in log ==> a in flash) && before == ScanLog(flash, log, chunkBytes)
      ensures forall a :: a in log + BlockLog(flash, b, tab.cpb) ==> a in flash
      ensures s == ScanLog(flash, log + BlockLog(flash, b, tab.cpb), chunkBytes)
    {
      hide ScanLog, ScanPage;
      s := before;
      var c: nat := tab.cpb;
      ghost var done := log;
      while c > 0
        invariant c <= tab.cpb && done + BlockLog(flash, b, c) == log + BlockLog(flash, b, tab.cpb)
        invariant (forall a :: a in done ==> a in flash) && s == ScanLog(flash, done, chunkBytes)
      {
        c := c - 1;
        var a := Addr(b, c);
        if a in flash {
          s := ScanPage(s, a, flash[a], chunkBytes);
          ScanSnoc(flash, done, a, chunkBytes);
          done := done + [a];
        }
      }
      assert done == log + BlockLog(flash, b, tab.cpb);
    }

    /** yaffs2_scan_backwards, reading nothing but the flash. */
    method ScanBackwards() returns (s: Scan)
      ensures forall a :: a in ScanLogOf(flash, |tab.blocks|, tab.cpb) ==> a in flash
      ensures s == ScanLog(flash, ScanLogOf(flash, |tab.blocks|, tab.cpb), chunkBytes)
    {
      hide ScanLog, BlockLog, ScanIndex, Sort;
      var index := BlocksToScan();
      index := Sort(index);
      ghost var whole := FullLog(flash, index, |index|, tab.cpb);
      ghost var log := [];
      s := map[];
      EmptyScan(flash, chunkBytes);
      var iter := |index|;
      while iter > 0
        invariant 0 <= iter <= |index| && log + FullLog(flash, index, iter, tab.cpb) == whole
        invariant (forall a :: a in log ==> a in flash) && s == ScanLog(flash, log, chunkBytes)
      {
        iter := iter - 1;
        s := ScanBlock(s, index[iter].block, log);
        log := log + BlockLog(flash, index[iter].block, tab.cpb);
      }
      assert log == whole;
    }

    /** Mounting finds of every file what the mount theorem says it does, from whatever point of an
        operation the power went at. */
    method Mount(ghost pend: Pending) returns (s: Scan)
      requires FlashLog.Inv(View(), {}, pend) && tab.seqNumber < 0x8000_0000
      ensures forall o, e :: Settled(View(), pend, o, e) ==> Finds(View(), s, o, e)
    {
      hide FlashLog.Inv, ScanLog, ScanLogOf, Scannable, Settled, Finds;
      s := ScanBackwards();
      InvScannable(View(), pend);
      ScansInOrder(flash, |tab.blocks|, tab.cpb);
      forall o, e | Settled(View(), pend, o, e) ensures Finds(View(), s, o, e) {
        MountFinds(View(), pend, ScanLogOf(flash, |tab.blocks|, tab.cpb), o, e);
      }
    }
  }
}
