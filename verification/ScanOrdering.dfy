/** The order in which yaffs2_scan_backwards visits the flash: blocks sorted by sequence
    number and taken from the top, pages of a block from the last to the first. */
module ScanOrdering {
  import opened BlockTable
  import opened FlashLog
  import opened MountScan

  const HIGHEST_SEQUENCE := 0xefff_ff00

  datatype BlockIndex = BlockIndex(seqNumber: nat, block: nat)

  /** Conversion of an unsigned 32-bit value to int. */
  function ToInt32(x: nat): int { if x < 0x8000_0000 then x else x - 0x1_0000_0000 }

  /** yaffs2_ybicmp */
  function Compare(a: BlockIndex, b: BlockIndex): int {
    if ToInt32(a.seqNumber) == ToInt32(b.seqNumber) then a.block - b.block
    else ToInt32(a.seqNumber) - ToInt32(b.seqNumber)
  }

  ghost predicate Sorted(s: seq<BlockIndex>) {
    forall i, j :: 0 <= i < j < |s| ==> Compare(s[i], s[j]) <= 0
  }

  function Insert(e: BlockIndex, s: seq<BlockIndex>): seq<BlockIndex> {
    if s == [] || Compare(e, s[0]) <= 0 then [e] + s else [s[0]] + Insert(e, s[1..])
  }

  /** The library sort, as insertion. */
  function Sort(s: seq<BlockIndex>): seq<BlockIndex> {
    if s == [] then [] else Insert(s[0], Sort(s[1..]))
  }

  lemma {:induction false} InsertElements(e: BlockIndex, s: seq<BlockIndex>, x: BlockIndex)
    ensures |Insert(e, s)| == |s| + 1
    ensures x in Insert(e, s) <==> x == e || x in s
  {
    if s != [] && Compare(e, s[0]) > 0 {
      InsertElements(e, s[1..], x);
      assert s == [s[0]] + s[1..];
    }
  }

  lemma {:induction false} InsertSorted(e: BlockIndex, s: seq<BlockIndex>)
    requires Sorted(s)
    ensures Sorted(Insert(e, s))
  {
    if s == [] {
    } else if Compare(e, s[0]) <= 0 {
      forall j | 0 < j < |s| + 1 ensures Compare(e, ([e] + s)[j]) <= 0 {
        if j > 1 { assert Compare(s[0], s[j - 1]) <= 0; }
      }
    } else {
      InsertSorted(e, s[1..]);
      var r := Insert(e, s[1..]);
      forall j | 0 < j < |r| + 1 ensures Compare(s[0], ([s[0]] + r)[j]) <= 0 {
        InsertElements(e, s[1..], r[j - 1]);
        if r[j - 1] != e {
          var k :| 0 <= k < |s[1..]| && s[1..][k] == r[j - 1];
          assert s[k + 1] == r[j - 1];
        }
      }
    }
  }

  lemma {:induction false} SortSorts(s: seq<BlockIndex>)
    ensures Sorted(Sort(s))
  {
    if s != [] {
      SortSorts(s[1..]);
      InsertSorted(s[0], Sort(s[1..]));
    }
  }

  lemma {:induction false} SortElements(s: seq<BlockIndex>, x: BlockIndex)
    ensures x in Sort(s) <==> x in s
  {
    if s != [] {
      SortElements(s[1..], x);
      InsertElements(s[0], Sort(s[1..]), x);
      assert s == [s[0]] + s[1..];
    }
  }

  /** The blocks below `n` that need scanning, with the sequence number on their first page. */
  function ScanIndex(f: map<Addr, Page>, n: nat): seq<BlockIndex> {
    if n == 0 then []
    else ScanIndex(f, n - 1) + if ToScan(f, n - 1) then [BlockIndex(f[Addr(n - 1, 0)].seqNumber, n - 1)] else []
  }

  predicate ToScan(f: map<Addr, Page>, b: nat) {
    Addr(b, 0) in f && LOWEST_SEQUENCE <= f[Addr(b, 0)].seqNumber < HIGHEST_SEQUENCE
  }

  lemma {:induction false} IndexElements(f: map<Addr, Page>, n: nat, x: BlockIndex)
    ensures x in ScanIndex(f, n) <==>
      x.block < n && ToScan(f, x.block) && x.seqNumber == f[Addr(x.block, 0)].seqNumber
  {
    if n > 0 { IndexElements(f, n - 1, x); }
  }

  /** The pages of block `b` below page `c`, last first. */
  function BlockLog(f: map<Addr, Page>, b: nat, c: nat): seq<Addr> {
    if c == 0 then [] else (if Addr(b, c - 1) in f then [Addr(b, c - 1)] else []) + BlockLog(f, b, c - 1)
  }

  lemma {:induction false} BlockLogElements(f: map<Addr, Page>, b: nat, c: nat, a: Addr)
    ensures a in BlockLog(f, b, c) <==> a in f && a.block == b && a.page < c
  {
    if c > 0 { BlockLogElements(f, b, c - 1, a); }
  }

  lemma {:induction false} BlockLogOrder(f: map<Addr, Page>, b: nat, c: nat, i: nat, j: nat)
    requires i < j < |BlockLog(f, b, c)|
    ensures BlockLog(f, b, c)[i].page > BlockLog(f, b, c)[j].page
  {
    var r := BlockLog(f, b, c - 1);
    if Addr(b, c - 1) in f {
      assert BlockLog(f, b, c)[j] == r[j - 1];
      if i == 0 { BlockLogElements(f, b, c - 1, r[j - 1]); } else { BlockLogOrder(f, b, c - 1, i - 1, j - 1); }
    } else {
      BlockLogOrder(f, b, c - 1, i, j);
    }
  }

  /** The pages of the first `k` indexed blocks, last block first. */
  function FullLog(f: map<Addr, Page>, idx: seq<BlockIndex>, k: nat, cpb: nat): seq<Addr>
    requires k <= |idx|
  {
    if k == 0 then [] else BlockLog(f, idx[k - 1].block, cpb) + FullLog(f, idx, k - 1, cpb)
  }

  lemma {:induction false} FullLogElements(f: map<Addr, Page>, idx: seq<BlockIndex>, k: nat, cpb: nat, a: Addr)
    requires k <= |idx|
    ensures a in FullLog(f, idx, k, cpb) <==>
      a in f && a.page < cpb && exists i :: 0 <= i < k && idx[i].block == a.block
  {
    hide BlockLog;
    if k > 0 {
      assert FullLog(f, idx, k, cpb) == BlockLog(f, idx[k - 1].block, cpb) + FullLog(f, idx, k - 1, cpb);
      FullLogElements(f, idx, k - 1, cpb, a);
      BlockLogElements(f, idx[k - 1].block, cpb, a);
    }
  }

  /** Each block's pages carry one sequence number, which the index lists in rising order. */
  ghost predicate IndexedBy(f: map<Addr, Page>, idx: seq<BlockIndex>) {
    && (forall i, j :: 0 <= i < j < |idx| ==> idx[i].seqNumber < idx[j].seqNumber)
    && (forall i, a :: 0 <= i < |idx| && a in f && a.block == idx[i].block ==> f[a].seqNumber == idx[i].seqNumber)
  }

  lemma LogPage(f: map<Addr, Page>, idx: seq<BlockIndex>, k: nat, cpb: nat, i: nat)
    requires k < |idx| && IndexedBy(f, idx)
    ensures i < |BlockLog(f, idx[k].block, cpb)| ==>
      var a := BlockLog(f, idx[k].block, cpb)[i]; a in f && f[a].seqNumber == idx[k].seqNumber
    ensures i < |FullLog(f, idx, k, cpb)| ==>
      var a := FullLog(f, idx, k, cpb)[i]; a in f && f[a].seqNumber < idx[k].seqNumber
  {
    if i < |BlockLog(f, idx[k].block, cpb)| {
      BlockLogElements(f, idx[k].block, cpb, BlockLog(f, idx[k].block, cpb)[i]);
    }
    if i < |FullLog(f, idx, k, cpb)| { FullLogElements(f, idx, k, cpb, FullLog(f, idx, k, cpb)[i]); }
  }

  lemma {:induction false} FullLogOrder(f: map<Addr, Page>, idx: seq<BlockIndex>, k: nat, cpb: nat, i: nat, j: nat)
    requires k <= |idx| && IndexedBy(f, idx) && i < j < |FullLog(f, idx, k, cpb)|
    ensures Newer(f, FullLog(f, idx, k, cpb)[i], FullLog(f, idx, k, cpb)[j])
  {
    hide IndexedBy, BlockLog;
    var top, rest := BlockLog(f, idx[k - 1].block, cpb), FullLog(f, idx, k - 1, cpb);
    assert FullLog(f, idx, k, cpb) == top + rest;
    if j < |top| {
      LogPage(f, idx, k - 1, cpb, i);
      LogPage(f, idx, k - 1, cpb, j);
      BlockLogOrder(f, idx[k - 1].block, cpb, i, j);
    } else if i < |top| {
      LogPage(f, idx, k - 1, cpb, i);
      LogPage(f, idx, k - 1, cpb, j - |top|);
    } else {
      FullLogOrder(f, idx, k - 1, cpb, i - |top|, j - |top|);
    }
  }

  /** The order of yaffs2_scan_backwards. */
  function ScanLogOf(f: map<Addr, Page>, n: nat, cpb: nat): seq<Addr> {
    FullLog(f, Sort(ScanIndex(f, n)), |Sort(ScanIndex(f, n))|, cpb)
  }

  ghost predicate Distinct(s: seq<BlockIndex>) {
    forall i, j :: 0 <= i < j < |s| ==> s[i].block != s[j].block
  }

  ghost predicate FreshBlock(b: nat, s: seq<BlockIndex>) {
    forall x :: x in s ==> x.block != b
  }

  lemma {:induction false} InsertDistinct(e: BlockIndex, s: seq<BlockIndex>)
    requires Distinct(s) && FreshBlock(e.block, s)
    ensures Distinct(Insert(e, s))
  {
    if s != [] && Compare(e, s[0]) > 0 {
      InsertDistinct(e, s[1..]);
      var r := Insert(e, s[1..]);
      forall j | 0 < j < |r| + 1 ensures ([s[0]] + r)[j].block != s[0].block {
        InsertElements(e, s[1..], r[j - 1]);
        if r[j - 1] != e {
          var k :| 0 <= k < |s[1..]| && s[1..][k] == r[j - 1];
          assert s[k + 1] == r[j - 1];
        }
      }
    }
  }

  lemma {:induction false} SortDistinct(s: seq<BlockIndex>)
    requires Distinct(s)
    ensures Distinct(Sort(s))
  {
    if s != [] {
      SortDistinct(s[1..]);
      forall x | x in Sort(s[1..]) ensures x.block != s[0].block {
        SortElements(s[1..], x);
        var k :| 0 <= k < |s[1..]| && s[1..][k] == x;
        assert s[k + 1] == x;
      }
      InsertDistinct(s[0], Sort(s[1..]));
    }
  }

  lemma {:induction false} IndexDistinct(f: map<Addr, Page>, n: nat)
    ensures Distinct(ScanIndex(f, n))
  {
    if n > 0 {
      IndexDistinct(f, n - 1);
      forall x | x in ScanIndex(f, n - 1) ensures x.block < n - 1 { IndexElements(f, n - 1, x); }
    }
  }

  /** The shape of a flash that scans in order. */
  ghost predicate Scannable(f: map<Addr, Page>, n: nat, cpb: nat) {
    && (forall a :: a in f ==>
          && a.block < n && a.page < cpb && FirstPage(a) in f
          && LOWEST_SEQUENCE <= f[a].seqNumber < 0x8000_0000)
    && (forall a, b :: a in f && b in f ==> (a.block == b.block <==> f[a].seqNumber == f[b].seqNumber))
  }

  lemma SortedIndex(f: map<Addr, Page>, n: nat, cpb: nat, idx: seq<BlockIndex>)
    requires Scannable(f, n, cpb) && Sorted(idx) && Distinct(idx)
    requires forall x :: x in idx ==> x.block < n && ToScan(f, x.block) && x.seqNumber == f[Addr(x.block, 0)].seqNumber
    ensures IndexedBy(f, idx)
  {
    forall i, j | 0 <= i < j < |idx| ensures idx[i].seqNumber < idx[j].seqNumber {
      assert idx[i] in idx && idx[j] in idx;
      assert Addr(idx[i].block, 0) in f && Addr(idx[j].block, 0) in f;
      assert Compare(idx[i], idx[j]) <= 0;
    }
    forall i, a | 0 <= i < |idx| && a in f && a.block == idx[i].block ensures f[a].seqNumber == idx[i].seqNumber {
      assert idx[i] in idx && Addr(idx[i].block, 0) in f;
    }
  }

  /** Sorting the blocks by sequence number and walking backwards visits every page once,
      newest first. */
  lemma ScansInOrder(f: map<Addr, Page>, n: nat, cpb: nat)
    requires Scannable(f, n, cpb)
    ensures ScanOrder(f, ScanLogOf(f, n, cpb))
  {
    var idx := Sort(ScanIndex(f, n));
    var log := ScanLogOf(f, n, cpb);
    IndexDistinct(f, n);
    SortDistinct(ScanIndex(f, n));
    SortSorts(ScanIndex(f, n));
    forall x | x in idx ensures x.block < n && ToScan(f, x.block) && x.seqNumber == f[Addr(x.block, 0)].seqNumber {
      SortElements(ScanIndex(f, n), x);
      IndexElements(f, n, x);
    }
    SortedIndex(f, n, cpb, idx);
    forall a ensures a in f <==> a in log {
      FullLogElements(f, idx, |idx|, cpb, a);
      if a in f { BlockIndexed(f, n, cpb, a); }
    }
    forall i, j | 0 <= i < j < |log| ensures Newer(f, log[i], log[j]) {
      FullLogOrder(f, idx, |idx|, cpb, i, j);
    }
  }

  lemma BlockIndexed(f: map<Addr, Page>, n: nat, cpb: nat, a: Addr)
    requires Scannable(f, n, cpb) && a in f
    ensures a.page < cpb && exists i :: 0 <= i < |Sort(ScanIndex(f, n))| && Sort(ScanIndex(f, n))[i].block == a.block
  {
    var x := BlockIndex(f[FirstPage(a)].seqNumber, a.block);
    assert FirstPage(a) in f;
    IndexElements(f, n, x);
    SortElements(ScanIndex(f, n), x);
  }

  /** Every reachable device below 2^31 sequence numbers scans in order. */
  lemma DeviceScannable(v: Dev)
    requires Pages(v) && FirstPages(v) && SeqNumbers(v.t) && v.t.seqNumber < 0x8000_0000
    ensures Scannable(v.flash, |v.t.blocks|, v.t.cpb)
  {
  }
}
