/** The checkpoint stream as yaffs_checkptrw.c runs it, byte by byte over a page buffer. */
module CheckptDevice {
  import opened Basics
  import opened CheckptStream

  class StreamWriter {
    const g: Geometry
    const buf: array<bv8>
    var kinds: seq<Kind>
    var pages: map<At, Page>
    var avail: int
    var cur: Option<nat>
    var chunk: nat
    var next: Option<nat>
    var pageSeq: nat
    var offs: nat
    var sums: Sums
    var ok: bool
    ghost var log: seq<Entry>

    ghost function View(): Writer
      reads this, buf
    {
      Writer(kinds, pages, avail, cur, chunk, next, pageSeq, buf[..], offs, sums, ok, log)
    }

    /** yaffs2_checkpt_open for writing: the blocks of an old checkpoint are erased. */
    constructor (g0: Geometry, kinds0: seq<Kind>, avail0: int)
      ensures g == g0 && fresh(buf) && View() == OpenWrite(g0, kinds0, avail0)
    {
      g := g0;
      buf := new bv8[g0.size](_ => 0);
      kinds, pages, avail := kinds0, map[], avail0;
      cur, chunk, next, pageSeq, offs, sums, ok, log := None, 0, Some(g0.start), 0, 0, Sums(0, 0), true, [];
      new;
      var i := 0;
      while i < |kinds|
        invariant 0 <= i <= |kinds| && |kinds| == |kinds0|
        invariant forall j :: 0 <= j < i ==> kinds[j] == if kinds0[j] == Checkpoint then Empty else kinds0[j]
        invariant forall j :: i <= j < |kinds| ==> kinds[j] == kinds0[j]
        invariant buf[..] == Blank(g0) && pages == map[] && avail == avail0 && cur == None && chunk == 0
        invariant next == Some(g0.start) && pageSeq == 0 && offs == 0 && sums == Sums(0, 0) && ok && log == []
      {
        if kinds[i] == Checkpoint { kinds := kinds[i := Empty]; }
        i := i + 1;
      }
    }

    /** yaffs2_checkpt_find_erased_block */
    method FindErasedBlock()
      requires cur.None?
      modifies this`cur, this`next, this`chunk
      ensures View() == Locate(old(View()))
    {
      chunk := 0;
      if next.Some? && next.value < |kinds| && avail > 0 {
        var i := next.value;
        ghost var found := FindErased(kinds, i);
        while i < |kinds|
          invariant old(next).value <= i <= |kinds| && FindErased(kinds, i) == found
          invariant cur == None && chunk == 0 && next == old(next)
        {
          if kinds[i] == Empty {
            next, cur := Some(i + 1), Some(i);
            return;
          }
          i := i + 1;
        }
      }
      next, cur := None, None;
    }

    /** yaffs2_checkpt_flush_buffer */
    method FlushBuffer()
      requires buf.Length == g.size
      modifies this, buf
      ensures View() == Flush(g, old(View()))
    {
      hide FindErased, Locate, StorePage;
      LocateOpen(View());
      if cur.None? { FindErasedBlock(); }
      StoreBuffer();
    }

    method StoreBuffer()
      requires buf.Length == g.size
      modifies this, buf
      ensures View() == StorePage(g, old(View()))
    {
      hide PutPage, Advance;
      if cur.None? || next.None? {
        ok := false;
        return;
      }
      PutPageOut(At(cur.value, chunk), next.value);
      AdvancePage();
    }

    method PutPageOut(at: At, hint: nat)
      modifies this`kinds, this`pages, this`log
      ensures View() == PutPage(old(View()), at, hint)
    {
      if chunk == 0 && at.block < |kinds| { kinds := kinds[at.block := Checkpoint]; }
      pages := pages[at := Page(pageSeq + 1, hint, buf[..])];
      log := log + [Entry(at, buf[..])];
    }

    method AdvancePage()
      requires buf.Length == g.size
      modifies this`offs, this`pageSeq, this`chunk, this`cur, buf
      ensures View() == Advance(g, old(View()))
    {
      offs, pageSeq, chunk := 0, pageSeq + 1, chunk + 1;
      if chunk >= g.cpb { chunk, cur := 0, None; }
      ClearBuffer();
    }

    method ClearBuffer()
      requires buf.Length == g.size
      modifies buf
      ensures buf[..] == Blank(g)
    {
      var i := 0;
      while i < buf.Length
        invariant 0 <= i <= buf.Length && forall j :: 0 <= j < i ==> buf[j] == 0
      {
        buf[i] := 0;
        i := i + 1;
      }
    }

    /** yaffs2_checkpt_wr */
    method Write(data: Bytes)
      requires buf.Length == g.size
      modifies this, buf
      ensures View() == Wr(g, old(View()), data)
    {
      hide Flush, AddByte;
      var i := 0;
      assert data[0..] == data;
      while i < |data| && ok
        invariant 0 <= i <= |data| && Wr(g, old(View()), data) == Wr(g, View(), data[i..])
        decreases |data| - i
      {
        ghost var before := View();
        assert data[i..][0] == data[i] && data[i..][1..] == data[i + 1..];
        if offs >= buf.Length {
          ok := false;
        } else {
          buf[offs] := data[i];
          sums := AddByte(sums, data[i]);
          offs := offs + 1;
          if offs >= g.size { FlushBuffer(); }
        }
        assert View() == PutByte(g, before, data[i]);
        i := i + 1;
      }
    }
  }

  lemma LocateOpen(w: Writer)
    ensures w.cur.Some? ==> Locate(w) == w
  {
  }

  class StreamReader {
    const g: Geometry
    const pages: map<At, Page>
    const blocks: nat
    const maxBlocks: nat
    var cur: Option<nat>
    var chunk: nat
    var next: nat
    var pageSeq: nat
    var buf: Bytes
    var offs: nat
    var sums: Sums
    var list: seq<nat>

    function View(): Reader
      reads this
    {
      Reader(cur, chunk, next, pageSeq, buf, offs, sums, list)
    }

    /** yaffs2_checkpt_open for reading */
    constructor (g0: Geometry, pages0: map<At, Page>, blocks0: nat, maxBlocks0: nat)
      ensures g == g0 && pages == pages0 && blocks == blocks0 && maxBlocks == maxBlocks0 && View() == OpenRead(g0)
    {
      g, pages, blocks, maxBlocks := g0, pages0, blocks0, maxBlocks0;
      cur, chunk, next, pageSeq, buf, offs, sums, list := None, 0, g0.start, 0, Blank(g0), g0.size, Sums(0, 0), [];
    }

    /** yaffs2_checkpt_find_block */
    method FindNextBlock()
      requires cur.None?
      modifies this`cur, this`next, this`chunk, this`list
      ensures View() == Seek(pages, old(View()), blocks, maxBlocks)
    {
      chunk := 0;
      if |list| < maxBlocks {
        var i := next;
        ghost var found := FindBlock(pages, i, blocks);
        while i < blocks
          invariant next <= i && FindBlock(pages, i, blocks) == found
          invariant cur == None && chunk == 0 && next == old(next) && list == old(list)
        {
          if At(i, 0) in pages {
            cur, next, list := Some(i), pages[At(i, 0)].hint, list + [i];
            return;
          }
          i := i + 1;
        }
      }
    }

    /** The page fetch inside yaffs2_checkpt_rd */
    method LoadPage() returns (ok: bool)
      modifies this
      ensures ok <==> Load(g, pages, old(View()), blocks, maxBlocks).Some?
      ensures ok ==> View() == Load(g, pages, old(View()), blocks, maxBlocks).value
    {
      hide FindBlock;
      if cur.None? { FindNextBlock(); }
      assert View() == Seek(pages, old(View()), blocks, maxBlocks);
      if cur.None? || At(cur.value, chunk) !in pages || pages[At(cur.value, chunk)].id != pageSeq + 1 { return false; }
      buf, offs, pageSeq, chunk := pages[At(cur.value, chunk)].data, 0, pageSeq + 1, chunk + 1;
      if chunk >= g.cpb { cur := None; }
      return true;
    }

    method NextByte() returns (b: Option<bv8>)
      modifies this
      ensures b.None? <==> GetByte(g, pages, old(View()), blocks, maxBlocks).None?
      ensures b.Some? ==> GetByte(g, pages, old(View()), blocks, maxBlocks) == Some((View(), b.value))
    {
      hide Load, AddByte;
      if offs >= g.size {
        var ok := LoadPage();
        if !ok { return None; }
      }
      if offs >= |buf| { return None; }
      b := Some(buf[offs]);
      sums := AddByte(sums, buf[offs]);
      offs := offs + 1;
    }

    /** yaffs2_checkpt_rd: the bytes read, short if the stream breaks off. */
    method Read(count: nat) returns (data: Bytes)
      modifies this
      ensures data == Rd(g, pages, old(View()), count, blocks, maxBlocks).1
      ensures |data| == count ==> View() == Rd(g, pages, old(View()), count, blocks, maxBlocks).0
    {
      hide GetByte;
      data := [];
      ghost var all := Rd(g, pages, View(), count, blocks, maxBlocks);
      while |data| < count
        invariant |data| <= count
        invariant var left := Rd(g, pages, View(), count - |data|, blocks, maxBlocks);
          all.0 == left.0 && all.1 == data + left.1
        decreases count - |data|
      {
        var b := NextByte();
        if b.None? { return; }
        ghost var left := Rd(g, pages, View(), count - |data| - 1, blocks, maxBlocks).1;
        assert data + ([b.value] + left) == (data + [b.value]) + left;
        data := data + [b.value];
      }
    }
  }
}
