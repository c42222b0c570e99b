/** The checkpoint byte stream: bytes gathered into pages, pages written to erased blocks found in
    ascending order, and read back by following the tags. */
module CheckptStream {
  import opened Basics
  import PT = PackedTags

  datatype Kind = Empty | Checkpoint | Other
  datatype At = At(block: nat, chunk: nat)

  /** A page with the checkpoint sequence number: chunk id and object id of its tags, and its data. */
  datatype Page = Page(id: nat, hint: nat, data: Bytes)

  datatype Geometry = Geometry(start: nat, cpb: nat, size: nat)   // first block, pages per block, bytes per page

  /** checkpt_sum and checkpt_xor, 32-bit */
  datatype Sums = Sums(sum: bv32, xor: bv32)

  function AddByte(s: Sums, b: bv8): Sums { Sums(s.sum + (b as bv32), s.xor ^ (b as bv32)) }

  function Blank(g: Geometry): Bytes { seq(g.size, _ => 0) }

  /** One page that was written. */
  datatype Entry = Entry(at: At, data: Bytes)

  // ----- writing -----

  datatype Writer = Writer(
    kinds: seq<Kind>, pages: map<At, Page>, avail: int,
    cur: Option<nat>, chunk: nat, next: Option<nat>, pageSeq: nat, buf: Bytes, offs: nat, sums: Sums,
    ok: bool, log: seq<Entry>)

  /** The first erased block from `i` on. */
  function FindErased(kinds: seq<Kind>, i: nat): (r: Option<nat>)
    ensures r.Some? ==> i <= r.value < |kinds| && kinds[r.value] == Empty
    ensures r.None? ==> forall j :: i <= j < |kinds| ==> kinds[j] != Empty
    decreases |kinds| - i
  {
    if i >= |kinds| then None else if kinds[i] == Empty then Some(i) else FindErased(kinds, i + 1)
  }

  /** yaffs2_checkpt_find_erased_block, when no block is open */
  function Locate(w: Writer): Writer {
    if w.cur.Some? then w
    else
      var b := if w.next.Some? && w.next.value < |w.kinds| && w.avail > 0 then FindErased(w.kinds, w.next.value)
          else None;
      w.(cur := b, next := if b.Some? then Some(b.value + 1) else None, chunk := 0)
  }

  /** yaffs2_checkpt_flush_buffer */
  function Flush(g: Geometry, w: Writer): Writer { StorePage(g, Locate(w)) }

  function StorePage(g: Geometry, w: Writer): Writer {
    if w.cur.None? || w.next.None? then w.(ok := false)
    else Advance(g, PutPage(w, At(w.cur.value, w.chunk), w.next.value))
  }

  /** The page and its tags go out; the first one in a block makes it a checkpoint block. */
  function PutPage(w: Writer, at: At, hint: nat): Writer {
    w.(kinds := if w.chunk == 0 && at.block < |w.kinds| then w.kinds[at.block := Checkpoint] else w.kinds,
       pages := w.pages[at := Page(w.pageSeq + 1, hint, w.buf)], log := w.log + [Entry(at, w.buf)])
  }

  /** The position after a page, with an empty buffer. */
  function Advance(g: Geometry, w: Writer): Writer {
    var full := w.chunk + 1 >= g.cpb;
    w.(offs := 0, pageSeq := w.pageSeq + 1, chunk := if full then 0 else w.chunk + 1,
       cur := if full then None else w.cur,
       buf := Blank(g))
  }

  function PutByte(g: Geometry, w: Writer, b: bv8): Writer {
    if w.offs >= |w.buf| then w.(ok := false)
    else
      var v := w.(buf := w.buf[w.offs := b], sums := AddByte(w.sums, b), offs := w.offs + 1);
      if v.offs >= g.size then Flush(g, v) else v
  }

  /** yaffs2_checkpt_wr */
  function Wr(g: Geometry, w: Writer, data: Bytes): Writer
    decreases |data|
  {
    if data == [] || !w.ok then w else Wr(g, PutByte(g, w, data[0]), data[1..])
  }

  /** The blocks once the old checkpoint is erased. */
  function Reopened(kinds: seq<Kind>): (r: seq<Kind>)
    ensures |r| == |kinds|
  {
    seq(|kinds|, i requires 0 <= i < |kinds| => if kinds[i] == Checkpoint then Empty else kinds[i])
  }

  /** yaffs2_checkpt_open for writing */
  function OpenWrite(g: Geometry, kinds: seq<Kind>, avail: int): Writer {
    Writer(Reopened(kinds), map[], avail, None, 0, Some(g.start), 0, Blank(g), 0, Sums(0, 0), true, [])
  }

  /** yaffs_checkpt_close of a written stream */
  function CloseWrite(g: Geometry, w: Writer): Writer { if w.offs != 0 then Flush(g, w) else w }

  // ----- what has been written -----

  function Flat(log: seq<Entry>): Bytes {
    if log == [] then [] else Flat(log[..|log| - 1]) + log[|log| - 1].data
  }

  /** Pages go to ascending places: through a block page by page, then to a later block. */
  predicate Follows(g: Geometry, a: At, b: At) {
    if a.chunk + 1 < g.cpb then b == At(a.block, a.chunk + 1) else b.chunk == 0 && b.block > a.block
  }

  predicate Before(a: At, b: At) { a.block < b.block || (a.block == b.block && a.chunk < b.chunk) }

  ghost predicate Ordered(g: Geometry, log: seq<Entry>) {
    && (log != [] ==> log[0].at.chunk == 0 && log[0].at.block >= g.start)
    && (forall k :: 0 <= k < |log| - 1 ==> Follows(g, log[k].at, log[k + 1].at))
    && (forall i, j :: 0 <= i < j < |log| ==> Before(log[i].at, log[j].at))
  }

  /** The pages on flash are those of the log, numbered in order, each pointing past its block. */
  ghost predicate OnFlash(pages: map<At, Page>, log: seq<Entry>) {
    && (forall k :: 0 <= k < |log| ==>
        log[k].at in pages && pages[log[k].at] == Page(k + 1, log[k].at.block + 1, log[k].data))
    && (forall a :: a in pages ==> exists k :: 0 <= k < |log| && log[k].at == a)
  }

  ghost predicate Sized(g: Geometry, log: seq<Entry>) { forall k :: 0 <= k < |log| ==> |log[k].data| == g.size }

  /** Where the writer stands after the log. */
  ghost predicate Position(g: Geometry, w: Writer) {
    if w.log == [] then w.cur == None && w.next == Some(g.start)
    else
      var last := w.log[|w.log| - 1].at;
      && w.next == Some(last.block + 1)
      && (if last.chunk + 1 < g.cpb then w.cur == Some(last.block) && w.chunk == last.chunk + 1 else w.cur == None)
  }

  ghost predicate Inside(log: seq<Entry>, n: nat) { forall k :: 0 <= k < |log| ==> log[k].at.block < n }

  ghost predicate Writing(g: Geometry, w: Writer, s: Bytes) {
    && g.size > 0 && g.cpb > 0 && |w.buf| == g.size && w.offs < g.size && w.pageSeq == |w.log|
    && Flat(w.log) + w.buf[..w.offs] == s
    && Ordered(g, w.log) && OnFlash(w.pages, w.log) && Sized(g, w.log) && Position(g, w) && Inside(w.log, |w.kinds|)
  }

  lemma FlatAppend(log: seq<Entry>, e: Entry)
    ensures Flat(log + [e]) == Flat(log) + e.data
  {
    assert (log + [e])[..|log|] == log;
  }

  lemma LocatePlace(g: Geometry, w: Writer)
    requires Position(g, w) && Ordered(g, w.log) && Inside(w.log, |w.kinds|) && g.cpb > 0 && Locate(w).cur.Some?
    ensures var v := Locate(w); var at := At(v.cur.value, v.chunk);
      && v.next == Some(at.block + 1) && at.block < |w.kinds| && Ordered(g, w.log + [Entry(at, w.buf)])
      && v == w.(cur := v.cur, next := v.next, chunk := v.chunk)
      && (forall k :: 0 <= k < |w.log| ==> w.log[k].at != at)
  {
    var v := Locate(w);
    var e := Entry(At(v.cur.value, v.chunk), w.buf);
    var log := w.log + [e];
    if w.log != [] {
      var last := w.log[|w.log| - 1].at;
      assert Follows(g, last, e.at) && Before(last, e.at);
      forall i | 0 <= i < |w.log| ensures Before(log[i].at, e.at) {
        if i < |w.log| - 1 { assert Before(w.log[i].at, last); }
      }
    }
  }

  lemma FlushWriting(g: Geometry, w: Writer)
    requires g.size > 0 && g.cpb > 0 && |w.buf| == g.size && w.pageSeq == |w.log|
    requires Ordered(g, w.log) && OnFlash(w.pages, w.log)
    requires Sized(g, w.log) && Position(g, w) && Inside(w.log, |w.kinds|)
    requires Flush(g, w).ok
    ensures Writing(g, Flush(g, w), Flat(w.log) + w.buf) && Flush(g, w).offs == 0
  {
    hide Ordered, OnFlash, Position, FindErased, Locate;
    LocatePlace(g, w);
    var u := Locate(w);
    var e := Entry(At(u.cur.value, u.chunk), w.buf);
    FlatAppend(w.log, e);
    FlushOnFlash(w.pages, w.log, e, |w.log| + 1);
    var v := Flush(g, w);
    assert v.log == w.log + [e];
    PositionAfter(g, v, e);
    assert v.buf[..0] == [];
  }

  lemma PositionAfter(g: Geometry, v: Writer, e: Entry)
    requires v.log != [] && v.log[|v.log| - 1] == e && v.next == Some(e.at.block + 1)
    requires if e.at.chunk + 1 < g.cpb then v.cur == Some(e.at.block) && v.chunk == e.at.chunk + 1 else v.cur == None
    ensures Position(g, v)
  {
  }

  lemma FlushOnFlash(pages: map<At, Page>, log: seq<Entry>, e: Entry, id: nat)
    requires OnFlash(pages, log) && id == |log| + 1 && forall k :: 0 <= k < |log| ==> log[k].at != e.at
    ensures OnFlash(pages[e.at := Page(id, e.at.block + 1, e.data)], log + [e])
  {
    var p, l := pages[e.at := Page(id, e.at.block + 1, e.data)], log + [e];
    forall a | a in p ensures exists k :: 0 <= k < |l| && l[k].at == a {
      if a == e.at {
        assert l[|log|].at == a;
      } else {
        var k :| 0 <= k < |log| && log[k].at == a;
        assert l[k].at == a;
      }
    }
  }

  lemma PutByteWriting(g: Geometry, w: Writer, b: bv8, s: Bytes)
    requires Writing(g, w, s) && w.ok && PutByte(g, w, b).ok
    ensures Writing(g, PutByte(g, w, b), s + [b])
  {
    hide Ordered, OnFlash, Sized, Position, Flush;
    var v := w.(buf := w.buf[w.offs := b], sums := AddByte(w.sums, b), offs := w.offs + 1);
    assert v.buf[..v.offs] == w.buf[..w.offs] + [b];
    SamePosition(g, w, v);
    if v.offs >= g.size {
      assert v.buf[..v.offs] == v.buf;
      FlushWriting(g, v);
    }
  }

  lemma SamePosition(g: Geometry, w: Writer, v: Writer)
    requires Position(g, w) && v.log == w.log && v.cur == w.cur && v.next == w.next && v.chunk == w.chunk
    ensures Position(g, v)
  {
  }

  /** Any splitting of the bytes into calls writes the same stream. */
  lemma {:induction false} WrSplit(g: Geometry, w: Writer, a: Bytes, b: Bytes)
    ensures Wr(g, w, a + b) == Wr(g, Wr(g, w, a), b)
    decreases |a|
  {
    hide PutByte;
    if a == [] {
      assert a + b == b;
    } else {
      assert (a + b)[0] == a[0] && (a + b)[1..] == a[1..] + b;
      if w.ok { WrSplit(g, PutByte(g, w, a[0]), a[1..], b); }
    }
  }

  lemma {:induction false} WrWriting(g: Geometry, w: Writer, data: Bytes, s: Bytes)
    requires Writing(g, w, s) && w.ok && Wr(g, w, data).ok
    ensures Writing(g, Wr(g, w, data), s + data)
    decreases |data|
  {
    hide Writing, PutByte;
    if data == [] {
      assert s + data == s;
    } else {
      var v := PutByte(g, w, data[0]);
      WrStops(g, v, data[1..]);
      PutByteWriting(g, w, data[0], s);
      WrWriting(g, v, data[1..], s + [data[0]]);
      assert s + [data[0]] + data[1..] == s + data;
    }
  }

  lemma {:induction false} WrStops(g: Geometry, w: Writer, data: Bytes)
    ensures !w.ok ==> !Wr(g, w, data).ok
  {
  }

  lemma OpenWriting(g: Geometry, kinds: seq<Kind>, avail: int)
    requires g.size > 0 && g.cpb > 0
    ensures Writing(g, OpenWrite(g, kinds, avail), [])
  {
  }

  /** A closed stream is the written bytes and a zero tail, page after page. */
  ghost predicate Holds(g: Geometry, w: Writer, stream: Bytes) {
    && g.size > 0 && g.cpb > 0 && Flat(w.log) == stream
    && Ordered(g, w.log) && OnFlash(w.pages, w.log) && Sized(g, w.log) && Inside(w.log, |w.kinds|)
  }

  lemma CloseHolds(g: Geometry, w: Writer, s: Bytes)
    requires Writing(g, w, s) && CloseWrite(g, w).ok
    ensures exists pad: Bytes :: Holds(g, CloseWrite(g, w), s + pad)
  {
    hide Ordered, OnFlash, Sized, Position, Flush;
    if w.offs == 0 {
      assert w.buf[..0] == [] && s == s + [];
      assert Holds(g, w, s + []);
    } else {
      FlushWriting(g, w);
      assert Flat(w.log) + w.buf == s + w.buf[w.offs..] by { assert w.buf == w.buf[..w.offs] + w.buf[w.offs..]; }
      var v := Flush(g, w);
      assert v.buf[..0] == [];
      assert Holds(g, v, s + w.buf[w.offs..]);
    }
  }

  // ----- reading -----

  datatype Reader = Reader(
    cur: Option<nat>, chunk: nat, next: nat, pageSeq: nat, buf: Bytes, offs: nat, sums: Sums, list: seq<nat>)

  /** yaffs2_checkpt_open for reading */
  function OpenRead(g: Geometry): Reader { Reader(None, 0, g.start, 0, Blank(g), g.size, Sums(0, 0), []) }

  /** The first block from `i` on whose first page carries the checkpoint sequence number. */
  function FindBlock(pages: map<At, Page>, i: nat, n: nat): (r: Option<nat>)
    ensures r.Some? ==> i <= r.value < n && At(r.value, 0) in pages && forall j :: i <= j < r.value ==>
      At(j, 0) !in pages
    ensures r.None? ==> forall j :: i <= j < n ==> At(j, 0) !in pages
    decreases n - i
  {
    if i >= n then None else if At(i, 0) in pages then Some(i) else FindBlock(pages, i + 1, n)
  }

  /** yaffs2_checkpt_find_block, when no block is open */
  function Seek(pages: map<At, Page>, r: Reader, n: nat, maxBlocks: nat): Reader {
    if r.cur.Some? then r
    else
      var b := if |r.list| < maxBlocks then FindBlock(pages, r.next, n) else None;
      if b.None? then r.(chunk := 0)
      else r.(cur := b, chunk := 0, next := pages[At(b.value, 0)].hint, list := r.list + [b.value])
  }

  /** Loading the next page; none if the tags are not the expected ones. */
  function Load(g: Geometry, pages: map<At, Page>, r0: Reader, n: nat, maxBlocks: nat): Option<Reader> {
    var r := Seek(pages, r0, n, maxBlocks);
    if r.cur.None? || At(r.cur.value, r.chunk) !in pages ||
        pages[At(r.cur.value, r.chunk)].id != r.pageSeq + 1 then None
    else
      Some(r.(buf := pages[At(r.cur.value, r.chunk)].data, offs := 0, pageSeq := r.pageSeq + 1, chunk := r.chunk + 1,
              cur := if r.chunk + 1 >= g.cpb then None else r.cur))
  }

  function GetByte(g: Geometry, pages: map<At, Page>, r: Reader, n: nat, maxBlocks: nat): Option<(Reader, bv8)> {
    var l := if r.offs >= g.size then Load(g, pages, r, n, maxBlocks) else Some(r);
    if l.None? || l.value.offs >= |l.value.buf| then None
    else
      var v := l.value;
      var b := v.buf[v.offs];
      Some((v.(offs := v.offs + 1, sums := AddByte(v.sums, b)), b))
  }

  /** yaffs2_checkpt_rd: the bytes got, fewer than asked for on failure. */
  function Rd(g: Geometry, pages: map<At, Page>, r: Reader, count: nat, n: nat, maxBlocks: nat): (Reader, Bytes)
    decreases count
  {
    if count == 0 then (r, [])
    else
      var x := GetByte(g, pages, r, n, maxBlocks);
      if x.None? then (r, [])
      else
        var (v, rest) := Rd(g, pages, x.value.0, count - 1, n, maxBlocks);
        (v, [x.value.1] + rest)
  }

  // ----- reading what was written -----

  /** The blocks in which the first `k` pages lie, in order. */
  function Starts(log: seq<Entry>, k: nat): seq<nat>
    requires k <= |log|
  {
    if k == 0 then [] else Starts(log, k - 1) + (if log[k - 1].at.chunk == 0 then [log[k - 1].at.block] else [])
  }

  lemma {:induction false} StartsGrow(log: seq<Entry>, j: nat, k: nat)
    requires j <= k <= |log|
    ensures |Starts(log, j)| <= |Starts(log, k)|
    decreases k
  {
    if j < k { StartsGrow(log, j, k - 1); }
  }

  /** The reader has taken in the first `k` pages of the log. */
  ghost predicate Reading(g: Geometry, log: seq<Entry>, r: Reader, k: nat) {
    && k <= |log| && r.pageSeq == k && |r.buf| == g.size && r.offs <= g.size && r.list == Starts(log, k)
    && if k == 0 then r.cur == None && r.next == g.start && r.offs == g.size
       else
         var last := log[k - 1].at;
         && r.next == last.block + 1 && r.buf == log[k - 1].data
         && (if last.chunk + 1 < g.cpb then r.cur == Some(last.block) && r.chunk == last.chunk + 1 else r.cur == None)
  }

  /** Between a page that ends its block and the next page, no block starts with a checkpoint page. */
  lemma GapFree(g: Geometry, pages: map<At, Page>, log: seq<Entry>, k: nat, from: nat, j: nat)
    requires k < |log| && Ordered(g, log) && OnFlash(pages, log) && from <= j < log[k].at.block
    requires k > 0 ==> from == log[k - 1].at.block + 1
    ensures At(j, 0) !in pages
  {
    forall i | 0 <= i < |log| ensures log[i].at != At(j, 0) {
      if i < k - 1 { assert Before(log[i].at, log[k - 1].at); }
      if i > k { assert Before(log[k].at, log[i].at); }
    }
  }

  lemma NextPlace(g: Geometry, pages: map<At, Page>, log: seq<Entry>, r: Reader, k: nat)
    requires Reading(g, log, r, k) && k < |log| && Ordered(g, log) && OnFlash(pages, log)
    ensures var at := log[k].at;
      && at in pages && pages[at] == Page(k + 1, at.block + 1, log[k].data)
      && (if r.cur.None? then at.chunk == 0 && r.next <= at.block
          else r.cur == Some(at.block) && r.chunk == at.chunk && r.next == at.block + 1 && at.chunk != 0)
  {
    assert k > 0 ==> Follows(g, log[k - 1].at, log[k].at);
  }

  /** Seeking from the hint finds the block of the next page. */
  lemma SeekFinds(g: Geometry, pages: map<At, Page>, log: seq<Entry>, r: Reader, k: nat, n: nat, maxBlocks: nat)
    requires Reading(g, log, r, k) && k < |log| && Ordered(g, log) && OnFlash(pages, log)
    requires |Starts(log, |log|)| <= maxBlocks && Inside(log, n)
    ensures var v := Seek(pages, r, n, maxBlocks); var at := log[k].at;
      v == r.(cur := Some(at.block), chunk := at.chunk, next := at.block + 1,
              list := r.list + (if at.chunk == 0 then [at.block] else []))
  {
    hide Ordered, OnFlash;
    var at := log[k].at;
    NextPlace(g, pages, log, r, k);
    if r.cur.None? {
      StartsGrow(log, k + 1, |log|);
      forall j | r.next <= j < at.block ensures At(j, 0) !in pages { GapFree(g, pages, log, k, r.next, j); }
    }
  }

  lemma LoadNext(g: Geometry, pages: map<At, Page>, log: seq<Entry>, r: Reader, k: nat, n: nat, maxBlocks: nat)
    requires Reading(g, log, r, k) && k < |log| && Ordered(g, log) && OnFlash(pages, log) && Sized(g, log)
    requires |Starts(log, |log|)| <= maxBlocks && Inside(log, n)
    ensures var l := Load(g, pages, r, n, maxBlocks);
      l.Some? && Reading(g, log, l.value, k + 1) && l.value.offs == 0 && l.value.sums == r.sums
  {
    hide Ordered, Seek, Inside;
    SeekFinds(g, pages, log, r, k, n, maxBlocks);
    assert pages[log[k].at] == Page(k + 1, log[k].at.block + 1, log[k].data);
  }

  /** What a reader that has taken in `k` pages still has to deliver. */
  function Rest(log: seq<Entry>, r: Reader, k: nat): Bytes
    requires k <= |log| && r.offs <= |r.buf|
  {
    r.buf[r.offs..] + FlatFrom(log, k)
  }

  function FlatFrom(log: seq<Entry>, k: nat): Bytes
    requires k <= |log|
    decreases |log| - k
  {
    if k == |log| then [] else log[k].data + FlatFrom(log, k + 1)
  }

  lemma {:induction false} FlatFromSplit(log: seq<Entry>, k: nat)
    requires k <= |log|
    ensures Flat(log[..k]) + FlatFrom(log, k) == Flat(log)
    decreases |log| - k
  {
    if k == |log| {
      assert log[..k] == log;
    } else {
      assert log[..k + 1][..k] == log[..k];
      FlatFromSplit(log, k + 1);
    }
  }

  lemma GetByteRest(g: Geometry, pages: map<At, Page>, log: seq<Entry>, r: Reader, k: nat, n: nat, maxBlocks: nat)
    returns (k': nat)
    requires g.size > 0 && Reading(g, log, r, k) && Ordered(g, log) && OnFlash(pages, log) && Sized(g, log)
    requires |Starts(log, |log|)| <= maxBlocks && Inside(log, n)
    requires Rest(log, r, k) != []
    ensures var x := GetByte(g, pages, r, n, maxBlocks);
      && x.Some? && Reading(g, log, x.value.0, k') && x.value.1 == Rest(log, r, k)[0]
      && Rest(log, x.value.0, k') == Rest(log, r, k)[1..] && x.value.0.sums == AddByte(r.sums, x.value.1)
  {
    hide Ordered, OnFlash, Load;
    k' := k;
    if r.offs >= g.size {
      assert r.buf[r.offs..] == [];
      LoadNext(g, pages, log, r, k, n, maxBlocks);
      k' := k + 1;
      assert Load(g, pages, r, n, maxBlocks).value.buf == log[k].data;
    }
  }

  // ----- the round trip -----

  function SumsOf(s: Sums, data: Bytes): Sums
    decreases |data|
  {
    if data == [] then s else SumsOf(AddByte(s, data[0]), data[1..])
  }

  /** The reader delivers what is left, byte for byte, for any count up to its length. */
  lemma {:induction false} RdRest(g: Geometry, pages: map<At, Page>, log: seq<Entry>, r: Reader, k: nat,
        count: nat, n: nat, maxBlocks: nat)
    returns (k': nat)
    requires g.size > 0 && Reading(g, log, r, k) && Ordered(g, log) && OnFlash(pages, log) && Sized(g, log)
    requires |Starts(log, |log|)| <= maxBlocks && Inside(log, n) && count <= |Rest(log, r, k)|
    ensures var (v, got) := Rd(g, pages, r, count, n, maxBlocks);
      && got == Rest(log, r, k)[..count] && Reading(g, log, v, k')
      && Rest(log, v, k') == Rest(log, r, k)[count..] && v.sums == SumsOf(r.sums, got)
    decreases count
  {
    hide Ordered, OnFlash, Sized, Inside, GetByte, Reading, Rest, AddByte;
    var whole := RestOf(g, log, r, k);
    k' := k;
    if count > 0 {
      var k1 := GetByteRest(g, pages, log, r, k, n, maxBlocks);
      var x := GetByte(g, pages, r, n, maxBlocks);
      var next := RestOf(g, log, x.value.0, k1);
      k' := RdRest(g, pages, log, x.value.0, k1, count - 1, n, maxBlocks);
      assert whole[..count] == [whole[0]] + whole[1..][..count - 1];
      assert whole[1..][count - 1..] == whole[count..];
    }
  }

  /** A name for the rest, with its precondition. */
  lemma RestOf(g: Geometry, log: seq<Entry>, r: Reader, k: nat) returns (rest: Bytes)
    requires Reading(g, log, r, k)
    ensures k <= |log| && r.offs <= |r.buf| && rest == Rest(log, r, k)
  {
    rest := Rest(log, r, k);
  }

  function WrAll(g: Geometry, w: Writer, calls: seq<Bytes>): Writer
    decreases |calls|
  {
    if calls == [] then w else WrAll(g, Wr(g, w, calls[0]), calls[1..])
  }

  function RdAll(g: Geometry, pages: map<At, Page>, r: Reader, counts: seq<nat>, n: nat,
        maxBlocks: nat): (Reader, Bytes)
    decreases |counts|
  {
    if counts == [] then (r, [])
    else
      var (v, got) := Rd(g, pages, r, counts[0], n, maxBlocks);
      var (u, more) := RdAll(g, pages, v, counts[1..], n, maxBlocks);
      (u, got + more)
  }

  function Concat(calls: seq<Bytes>): Bytes { if calls == [] then [] else calls[0] + Concat(calls[1..]) }
  function Total(counts: seq<nat>): nat { if counts == [] then 0 else counts[0] + Total(counts[1..]) }

  lemma {:induction false} WrAllIsWr(g: Geometry, w: Writer, calls: seq<Bytes>)
    ensures WrAll(g, w, calls) == Wr(g, w, Concat(calls))
    decreases |calls|
  {
    if calls != [] {
      WrAllIsWr(g, Wr(g, w, calls[0]), calls[1..]);
      WrSplit(g, w, calls[0], Concat(calls[1..]));
    }
  }

  lemma {:induction false} RdAllRest(g: Geometry, pages: map<At, Page>, log: seq<Entry>, r: Reader, k: nat,
        counts: seq<nat>, n: nat, maxBlocks: nat)
    requires g.size > 0 && Reading(g, log, r, k) && Ordered(g, log) && OnFlash(pages, log) && Sized(g, log)
    requires |Starts(log, |log|)| <= maxBlocks && Inside(log, n) && Total(counts) <= |Rest(log, r, k)|
    ensures RdAll(g, pages, r, counts, n, maxBlocks).1 == Rest(log, r, k)[..Total(counts)]
    decreases |counts|
  {
    hide Ordered, OnFlash, Sized, Inside, Reading, Rest, Rd;
    var whole := RestOf(g, log, r, k);
    if counts != [] {
      var k1 := RdRest(g, pages, log, r, k, counts[0], n, maxBlocks);
      var v := Rd(g, pages, r, counts[0], n, maxBlocks).0;
      var rest := RestOf(g, log, v, k1);
      RdAllRest(g, pages, log, v, k1, counts[1..], n, maxBlocks);
      assert whole[..Total(counts)] == whole[..counts[0]] + whole[counts[0]..][..Total(counts[1..])];
    }
  }

  lemma OpenReading(g: Geometry, log: seq<Entry>)
    requires g.size > 0
    ensures Reading(g, log, OpenRead(g), 0) && Rest(log, OpenRead(g), 0) == Flat(log)
  {
    FlatFromSplit(log, 0);
    assert Flat(log[..0]) == [];
    assert OpenRead(g).buf[g.size..] == [];
  }

  /** The writer after any calls on a fresh stream, and its close. */
  function Written(g: Geometry, kinds: seq<Kind>, avail: int, calls: seq<Bytes>): Writer {
    var w := WrAll(g, OpenWrite(g, kinds, avail), calls);
    if w.ok then CloseWrite(g, w) else w
  }

  lemma WrittenHolds(g: Geometry, kinds: seq<Kind>, avail: int, calls: seq<Bytes>) returns (pad: Bytes)
    requires g.size > 0 && g.cpb > 0 && Written(g, kinds, avail, calls).ok
    ensures Holds(g, Written(g, kinds, avail, calls), Concat(calls) + pad)
    ensures |Written(g, kinds, avail, calls).kinds| == |kinds|
  {
    hide Writing, Holds, Wr, CloseWrite, OpenWrite;
    var w0 := OpenWrite(g, kinds, avail);
    OpenWriting(g, kinds, avail);
    OpenOk(g, kinds, avail);
    WrAllIsWr(g, w0, calls);
    WrKinds(g, w0, Concat(calls));
    WrWriting(g, w0, Concat(calls), []);
    var w := Wr(g, w0, Concat(calls));
    assert [] + Concat(calls) == Concat(calls);
    CloseHolds(g, w, Concat(calls));
    CloseKinds(g, w);
    pad :| Holds(g, CloseWrite(g, w), Concat(calls) + pad);
  }

  lemma OpenOk(g: Geometry, kinds: seq<Kind>, avail: int)
    ensures OpenWrite(g, kinds, avail).ok && |OpenWrite(g, kinds, avail).kinds| == |kinds|
  {
  }

  lemma CloseKinds(g: Geometry, w: Writer)
    ensures |CloseWrite(g, w).kinds| == |w.kinds|
  {
  }

  lemma {:induction false} WrKinds(g: Geometry, w: Writer, data: Bytes)
    ensures |Wr(g, w, data).kinds| == |w.kinds|
    decreases |data|
  {
    if data != [] && w.ok { WrKinds(g, PutByte(g, w, data[0]), data[1..]); }
  }

  /** Whatever was written, in whatever calls, is read back identically, in whatever calls, if no
      flush ran out of blocks and the blocks used fit the reader's list. */
  lemma ReadsBack(g: Geometry, kinds: seq<Kind>, avail: int, calls: seq<Bytes>, counts: seq<nat>, maxBlocks: nat)
    requires g.size > 0 && g.cpb > 0 && Written(g, kinds, avail, calls).ok && Total(counts) <= |Concat(calls)|
    requires var w := Written(g, kinds, avail, calls); |Starts(w.log, |w.log|)| <= maxBlocks
    ensures var w := Written(g, kinds, avail, calls);
      RdAll(g, w.pages, OpenRead(g), counts, |kinds|, maxBlocks).1 == Concat(calls)[..Total(counts)]
  {
    hide Ordered, OnFlash, Sized, Inside, Written, Reading, Rest, RdAll;
    var w := Written(g, kinds, avail, calls);
    var pad := WrittenHolds(g, kinds, avail, calls);
    OpenReading(g, w.log);
    RdAllRest(g, w.pages, w.log, OpenRead(g), 0, counts, |kinds|, maxBlocks);
  }

  /** The reader visits the writer's blocks in the writer's order. */
  lemma ReadsSameBlocks(g: Geometry, kinds: seq<Kind>, avail: int, calls: seq<Bytes>, maxBlocks: nat)
    requires g.size > 0 && g.cpb > 0 && Written(g, kinds, avail, calls).ok
    requires var w := Written(g, kinds, avail, calls); |Starts(w.log, |w.log|)| <= maxBlocks
    ensures var w := Written(g, kinds, avail, calls);
      Rd(g, w.pages, OpenRead(g), |Flat(w.log)|, |kinds|, maxBlocks).0.list == Starts(w.log, |w.log|)
  {
    hide Ordered, OnFlash, Inside, Written, Rd;
    var w := Written(g, kinds, avail, calls);
    var pad := WrittenHolds(g, kinds, avail, calls);
    OpenReading(g, w.log);
    var k := RdRest(g, w.pages, w.log, OpenRead(g), 0, |Flat(w.log)|, |kinds|, maxBlocks);
    var v := Rd(g, w.pages, OpenRead(g), |Flat(w.log)|, |kinds|, maxBlocks).0;
    AllTaken(g, w.log, v, k);
  }

  lemma AllTaken(g: Geometry, log: seq<Entry>, r: Reader, k: nat)
    requires g.size > 0 && Sized(g, log) && Reading(g, log, r, k) && Rest(log, r, k) == []
    ensures k == |log|
  {
  }

  // ----- the checksum -----

  /** yaffs2_get_checkpt_sum */
  function Composite(s: Sums): bv32 { (s.sum << 8) | (s.xor & 0xff) }

  lemma {:induction false} WrSums(g: Geometry, w: Writer, data: Bytes)
    requires w.ok && Wr(g, w, data).ok
    ensures Wr(g, w, data).sums == SumsOf(w.sums, data)
    decreases |data|
  {
    hide AddByte;
    if data != [] {
      WrStops(g, PutByte(g, w, data[0]), data[1..]);
      WrSums(g, PutByte(g, w, data[0]), data[1..]);
    }
  }

  /** A stream closed with the checksum of its bytes: the reader, having read the bytes, reads a
      checksum equal to its own. */
  lemma ChecksumReads(g: Geometry, kinds: seq<Kind>, avail: int, data: Bytes, maxBlocks: nat)
    requires g.size > 0 && g.cpb > 0
    requires var w := Written(g, kinds, avail, [data, PT.BytesOf(Composite(SumsOf(Sums(0, 0), data)))]);
      w.ok && |Starts(w.log, |w.log|)| <= maxBlocks
    ensures var w := Written(g, kinds, avail, [data, PT.BytesOf(Composite(SumsOf(Sums(0, 0), data)))]);
      var (r, got) := Rd(g, w.pages, OpenRead(g), |data|, |kinds|, maxBlocks);
      var sum := Rd(g, w.pages, r, 4, |kinds|, maxBlocks).1;
      got == data && |sum| == 4 && PT.WordAt(sum, 0) == Composite(r.sums)
  {
    hide Ordered, OnFlash, Sized, Inside, Written, Reading, Rest, Rd, Composite, SumsOf, PT.BytesOf, PT.WordAt;
    var check := PT.BytesOf(Composite(SumsOf(Sums(0, 0), data)));
    var calls := [data, check];
    assert Concat(calls) == data + check by {
      assert calls[1..] == [check] && [check][1..] == [];
      assert Concat([check]) == check + Concat([]);
    }
    var w := Written(g, kinds, avail, calls);
    var pad := WrittenHolds(g, kinds, avail, calls);
    OpenReading(g, w.log);
    var whole := RestOf(g, w.log, OpenRead(g), 0);
    var k := RdRest(g, w.pages, w.log, OpenRead(g), 0, |data|, |kinds|, maxBlocks);
    var (r, got) := Rd(g, w.pages, OpenRead(g), |data|, |kinds|, maxBlocks);
    var rest := RestOf(g, w.log, r, k);
    assert whole[..|data|] == data && rest == check + pad;
    var k' := RdRest(g, w.pages, w.log, r, k, 4, |kinds|, maxBlocks);
    WordBack(Composite(SumsOf(Sums(0, 0), data)));
  }

  lemma WordBack(x: bv32)
    ensures PT.WordAt(PT.BytesOf(x), 0) == x
  {
    hide PT.Byte0, PT.Byte1, PT.Byte2, PT.Byte3, PT.Join;
    PT.JoinBytes(x);
  }
}
