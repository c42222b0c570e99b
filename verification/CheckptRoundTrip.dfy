/** When a checkpoint fits: the exact number of pages and blocks it takes, and the round trip that
    follows from them. */
module CheckptRoundTrip {
  import opened Basics
  import PT = PackedTags
  import opened CheckptStream

  // ----- pages used and pages left -----

  /** Pages in the erased blocks from `i` on. */
  function ErasedPages(g: Geometry, kinds: seq<Kind>, i: nat): nat
    decreases |kinds| - i
  {
    if i >= |kinds| then 0 else (if kinds[i] == Empty then g.cpb else 0) + ErasedPages(g, kinds, i + 1)
  }

  /** Pages the writer can still use. */
  function Pages(g: Geometry, w: Writer): int {
    (if w.cur.Some? then g.cpb - w.chunk else 0) + (if w.next.Some? then ErasedPages(g, w.kinds, w.next.value) else 0)
  }

  /** Page flushes that writing `n` more bytes takes. */
  function Flushes(g: Geometry, offs: nat, n: nat): nat
    decreases n
  {
    if n == 0 then 0 else if offs + 1 >= g.size then 1 + Flushes(g, 0, n - 1) else Flushes(g, offs + 1, n - 1)
  }

  predicate Stocked(g: Geometry, w: Writer) {
    && g.size > 0 && g.cpb > 0 && |w.buf| == g.size && w.offs < g.size && w.ok && w.avail > 0 && w.next.Some?
    && (w.cur.Some? ==> w.chunk < g.cpb && w.cur.value < w.next.value)
  }

  lemma {:induction false} ErasedFrame(g: Geometry, kinds: seq<Kind>, b: nat, i: nat)
    requires b < |kinds| && b < i
    ensures ErasedPages(g, kinds[b := Checkpoint], i) == ErasedPages(g, kinds, i)
    decreases |kinds| - i
  {
    if i < |kinds| { ErasedFrame(g, kinds, b, i + 1); }
  }

  lemma {:induction false} ErasedFound(g: Geometry, kinds: seq<Kind>, i: nat)
    ensures FindErased(kinds, i).None? ==> ErasedPages(g, kinds, i) == 0
    ensures FindErased(kinds, i).Some? ==>
      ErasedPages(g, kinds, i) == g.cpb + ErasedPages(g, kinds, FindErased(kinds, i).value + 1)
    decreases |kinds| - i
  {
    if i < |kinds| && kinds[i] != Empty { ErasedFound(g, kinds, i + 1); }
  }

  /** The offset in the page after `n` more bytes. */
  function OffsAfter(g: Geometry, offs: nat, n: nat): nat
    decreases n
  {
    if n == 0 then offs else OffsAfter(g, if offs + 1 >= g.size then 0 else offs + 1, n - 1)
  }

  /** A flush succeeds exactly when a page is left, and uses it up. */
  lemma FlushPages(g: Geometry, w: Writer)
    requires Stocked(g, w.(offs := 0)) && |w.buf| == g.size
    ensures Flush(g, w).ok <==> Pages(g, w) > 0
    ensures Flush(g, w).ok ==>
      Stocked(g, Flush(g, w)) && Flush(g, w).offs == 0 && Pages(g, Flush(g, w)) == Pages(g, w) - 1
    ensures Flush(g, w).ok ==> |Flush(g, w).log| == |w.log| + 1
  {
    hide ErasedPages, FindErased;
    var v := Locate(w);
    ErasedFound(g, w.kinds, w.next.value);
    if w.next.value >= |w.kinds| { ErasedNone(g, w.kinds, w.next.value); }
    if v.cur.Some? && v.cur.value < |v.kinds| { ErasedFrame(g, v.kinds, v.cur.value, v.next.value); }
  }

  lemma ErasedNone(g: Geometry, kinds: seq<Kind>, i: nat)
    requires i >= |kinds|
    ensures ErasedPages(g, kinds, i) == 0
  {
  }

  /** Writing succeeds exactly when the pages left hold those it fills, and takes that many. */
  lemma {:induction false} WrSucceeds(g: Geometry, w: Writer, data: Bytes)
    requires Stocked(g, w)
    ensures var v := Wr(g, w, data); var n := Flushes(g, w.offs, |data|);
      && (v.ok <==> n <= Pages(g, w))
      && (v.ok ==> Stocked(g, v) && Pages(g, v) == Pages(g, w) - n && |v.log| == |w.log| + n
                   && v.offs == OffsAfter(g, w.offs, |data|))
    decreases |data|
  {
    hide Flush, Pages;
    PagesNatural(g, w);
    if data != [] {
      var v := w.(buf := w.buf[w.offs := data[0]], sums := AddByte(w.sums, data[0]), offs := w.offs + 1);
      SamePages(g, w, v);
      if v.offs >= g.size {
        FlushPages(g, v);
        WrStops(g, Flush(g, v), data[1..]);
        if Flush(g, v).ok { WrSucceeds(g, Flush(g, v), data[1..]); }
      } else {
        WrSucceeds(g, v, data[1..]);
      }
    }
  }

  lemma SamePages(g: Geometry, w: Writer, v: Writer)
    requires v.kinds == w.kinds && v.cur == w.cur && v.chunk == w.chunk && v.next == w.next
    ensures Pages(g, v) == Pages(g, w)
  {
  }

  lemma PagesNatural(g: Geometry, w: Writer)
    requires Stocked(g, w)
    ensures Pages(g, w) >= 0
  {
  }

  /** Pages a checkpoint of `n` bytes takes, the last one perhaps partly filled. */
  function PagesNeeded(g: Geometry, n: nat): nat {
    Flushes(g, 0, n) + if OffsAfter(g, 0, n) != 0 then 1 else 0
  }

  /** Writing and closing succeed exactly when the erased blocks hold the pages needed. */
  lemma WrittenSucceeds(g: Geometry, kinds: seq<Kind>, avail: int, calls: seq<Bytes>)
    requires g.size > 0 && g.cpb > 0 && avail > 0
    ensures Written(g, kinds, avail, calls).ok <==>
      PagesNeeded(g, |Concat(calls)|) <= ErasedPages(g, Reopened(kinds), g.start)
    ensures Written(g, kinds, avail, calls).ok ==>
      |Written(g, kinds, avail, calls).log| == PagesNeeded(g, |Concat(calls)|)
  {
    hide Wr, Flush, ErasedPages, Reopened, Flushes, OffsAfter;
    var w0 := OpenWrite(g, kinds, avail);
    WrAllIsWr(g, w0, calls);
    WrSucceeds(g, w0, Concat(calls));
    var w := Wr(g, w0, Concat(calls));
    if w.ok && w.offs != 0 { FlushPages(g, w); }
    if w.ok { PagesNatural(g, w); }
  }

  // ----- blocks used -----

  /** The page of its block that the `k`-th page written goes to. */
  function ChunkNo(g: Geometry, k: nat): nat {
    if k == 0 then 0 else if ChunkNo(g, k - 1) + 1 < g.cpb then ChunkNo(g, k - 1) + 1 else 0
  }

  /** Blocks that `n` pages lie in. */
  function BlocksFor(g: Geometry, n: nat): nat {
    if n == 0 then 0 else BlocksFor(g, n - 1) + if ChunkNo(g, n - 1) == 0 then 1 else 0
  }

  /** That is the quotient rounded up. */
  lemma {:induction false} BlocksForExact(g: Geometry, n: nat)
    requires g.cpb > 0 && n > 0
    ensures ChunkNo(g, n - 1) < g.cpb && BlocksFor(g, n) * g.cpb == n - 1 - ChunkNo(g, n - 1) + g.cpb
  {
    if n > 1 {
      BlocksForExact(g, n - 1);
      var b := BlocksFor(g, n - 1);
      assert (b + 1) * g.cpb == b * g.cpb + g.cpb;
    }
  }

  lemma {:induction false} ChunkOfPage(g: Geometry, log: seq<Entry>, k: nat)
    requires Ordered(g, log) && k < |log|
    ensures log[k].at.chunk == ChunkNo(g, k)
  {
    if k > 0 {
      ChunkOfPage(g, log, k - 1);
      assert Follows(g, log[k - 1].at, log[k - 1 + 1].at);
    }
  }

  lemma {:induction false} StartsCount(g: Geometry, log: seq<Entry>, k: nat)
    requires Ordered(g, log) && k <= |log|
    ensures |Starts(log, k)| == BlocksFor(g, k)
  {
    hide Ordered;
    if k > 0 {
      StartsCount(g, log, k - 1);
      ChunkOfPage(g, log, k - 1);
    }
  }

  // ----- the round trip -----

  /** `n` bytes fit: erased blocks are to spare, they hold the pages, and the reader's list holds the
      blocks. */
  predicate Fits(g: Geometry, kinds: seq<Kind>, avail: int, n: nat, maxBlocks: nat) {
    && g.size > 0 && g.cpb > 0 && avail > 0
    && PagesNeeded(g, n) <= ErasedPages(g, Reopened(kinds), g.start) && BlocksFor(g, PagesNeeded(g, n)) <= maxBlocks
  }

  lemma FitsWritten(g: Geometry, kinds: seq<Kind>, avail: int, calls: seq<Bytes>, maxBlocks: nat)
    requires Fits(g, kinds, avail, |Concat(calls)|, maxBlocks)
    ensures var w := Written(g, kinds, avail, calls); w.ok && |Starts(w.log, |w.log|)| <= maxBlocks
  {
    hide Written, Reopened, ErasedPages, PagesNeeded, Ordered, OnFlash, Sized, Inside;
    WrittenSucceeds(g, kinds, avail, calls);
    var pad := WrittenHolds(g, kinds, avail, calls);
    var w := Written(g, kinds, avail, calls);
    StartsCount(g, w.log, |w.log|);
  }

  /** Whatever was written, in whatever calls, is read back identically, in whatever calls. */
  lemma RoundTrip(g: Geometry, kinds: seq<Kind>, avail: int, calls: seq<Bytes>, counts: seq<nat>, maxBlocks: nat)
    requires Fits(g, kinds, avail, |Concat(calls)|, maxBlocks) && Total(counts) <= |Concat(calls)|
    ensures var w := Written(g, kinds, avail, calls);
      w.ok && RdAll(g, w.pages, OpenRead(g), counts, |kinds|, maxBlocks).1 == Concat(calls)[..Total(counts)]
  {
    hide Written, RdAll, PagesNeeded, ErasedPages;
    FitsWritten(g, kinds, avail, calls, maxBlocks);
    ReadsBack(g, kinds, avail, calls, counts, maxBlocks);
  }

  /** The reader visits the writer's blocks in the writer's order. */
  lemma SameBlocks(g: Geometry, kinds: seq<Kind>, avail: int, calls: seq<Bytes>, maxBlocks: nat)
    requires Fits(g, kinds, avail, |Concat(calls)|, maxBlocks)
    ensures var w := Written(g, kinds, avail, calls);
      Rd(g, w.pages, OpenRead(g), |Flat(w.log)|, |kinds|, maxBlocks).0.list == Starts(w.log, |w.log|)
  {
    hide Written, Rd, PagesNeeded, ErasedPages;
    FitsWritten(g, kinds, avail, calls, maxBlocks);
    ReadsSameBlocks(g, kinds, avail, calls, maxBlocks);
  }

  /** A checkpoint closed with its checksum is accepted: the reader, having read the bytes, reads a
      checksum equal to its own. */
  lemma ChecksumAccepted(g: Geometry, kinds: seq<Kind>, avail: int, data: Bytes, maxBlocks: nat)
    requires Fits(g, kinds, avail, |data| + 4, maxBlocks)
    ensures var w := Written(g, kinds, avail, [data, PT.BytesOf(Composite(SumsOf(Sums(0, 0), data)))]);
      var (r, got) := Rd(g, w.pages, OpenRead(g), |data|, |kinds|, maxBlocks);
      var sum := Rd(g, w.pages, r, 4, |kinds|, maxBlocks).1;
      got == data && |sum| == 4 && PT.WordAt(sum, 0) == Composite(r.sums)
  {
    hide Written, Rd, PagesNeeded, ErasedPages, Composite, SumsOf, PT.BytesOf, PT.WordAt;
    var check := PT.BytesOf(Composite(SumsOf(Sums(0, 0), data)));
    assert |Concat([data, check])| == |data| + 4 by {
      assert [data, check][1..] == [check] && [check][1..] == [];
      assert Concat([check]) == check + Concat([]);
    }
    FitsWritten(g, kinds, avail, [data, check], maxBlocks);
    ChecksumReads(g, kinds, avail, data, maxBlocks);
  }
}
