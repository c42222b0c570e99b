/** Block states, the chunk bitmap and the space counters of a YAFFS2 device.

    A chunk number is kept as the pair (block, page) it encodes; `block` counts
    from the first block of the partition. */
module BlockTable {
  import opened Basics

  datatype Addr = Addr(block: nat, page: nat)

  datatype BlockState = Empty | Allocating | Full | Collecting | Checkpoint | Dead

  datatype BlockInfo = BlockInfo(
    state: BlockState,
    seqNumber: nat,
    pagesInUse: int,
    softDel: int,
    hasShrinkHdr: bool)

  datatype Table = Table(
    cpb: nat,               // chunks_per_block
    blocks: seq<BlockInfo>,
    bits: set<Addr>,        // the chunk bitmap
    soft: set<Addr>,        // chunks whose file has been soft deleted
    nFree: int,
    nErased: int,
    allocBlock: Option<nat>,
    allocPage: nat,
    seqNumber: nat,
    finder: nat,
    checkptOpen: bool,      // a checkpoint is being written
    inCheckpt: nat)         // blocks_in_checkpt

  const LOWEST_SEQUENCE := 0x1000
  const CLEAN_BLOCK := BlockInfo(Empty, 0, 0, 0, false)

  // ----- what the counters are supposed to count -----

  predicate HoldsFreeSpace(s: BlockState) {
    s == Empty || s == Allocating || s == Full || s == Collecting
  }

  function FreeIn(b: BlockInfo, cpb: nat): int {
    if HoldsFreeSpace(b.state) then cpb - b.pagesInUse + b.softDel else 0
  }

  /** yaffs_count_free_chunks: the recount that n_free_chunks must agree with. */
  function Recount(bs: seq<BlockInfo>, cpb: nat): int {
    if bs == [] then 0 else Recount(bs[..|bs| - 1], cpb) + FreeIn(bs[|bs| - 1], cpb)
  }

  function CountEmpty(bs: seq<BlockInfo>): nat {
    if bs == [] then 0
    else CountEmpty(bs[..|bs| - 1]) + if bs[|bs| - 1].state == Empty then 1 else 0
  }

  function InBlock(s: set<Addr>, b: nat): (r: set<Addr>) {
    set a | a in s && a.block == b
  }

  lemma {:induction false} RecountUpdate(bs: seq<BlockInfo>, cpb: nat, i: nat, b: BlockInfo)
    requires i < |bs|
    ensures Recount(bs[i := b], cpb) == Recount(bs, cpb) - FreeIn(bs[i], cpb) + FreeIn(b, cpb)
  {
    var n := |bs| - 1;
    if i == n {
      assert bs[i := b][..n] == bs[..n];
    } else {
      assert bs[i := b][..n] == bs[..n][i := b];
      RecountUpdate(bs[..n], cpb, i, b);
    }
  }

  lemma {:induction false} CountEmptyUpdate(bs: seq<BlockInfo>, i: nat, b: BlockInfo)
    requires i < |bs|
    ensures CountEmpty(bs[i := b])
         == CountEmpty(bs) - (if bs[i].state == Empty then 1 else 0) + (if b.state == Empty then 1 else 0)
  {
    var n := |bs| - 1;
    if i == n {
      assert bs[i := b][..n] == bs[..n];
    } else {
      assert bs[i := b][..n] == bs[..n][i := b];
      CountEmptyUpdate(bs[..n], i, b);
    }
  }

  lemma {:induction false} CountEmptyPositive(bs: seq<BlockInfo>)
    ensures CountEmpty(bs) > 0 <==> exists i :: 0 <= i < |bs| && bs[i].state == Empty
  {
    if bs != [] {
      var n := |bs| - 1;
      CountEmptyPositive(bs[..n]);
      if i :| 0 <= i < n && bs[i].state == Empty { assert bs[..n][i].state == Empty; }
      if i :| 0 <= i < |bs[..n]| && bs[..n][i].state == Empty { assert bs[i].state == Empty; }
    }
  }

  // ----- the accounting invariant -----

  /** While a checkpoint is being written the blocks it has taken are still counted as
      free and erased; closing it settles the account. */
  predicate Counters(t: Table) {
    && t.nFree == Recount(t.blocks, t.cpb) + Unsettled(t) * t.cpb
    && t.nErased == CountEmpty(t.blocks) + Unsettled(t)
  }

  function Unsettled(t: Table): nat { if t.checkptOpen then t.inCheckpt else 0 }

  /** pages_in_use is the popcount of the block's bits, soft_del_pages counts the soft
      deleted ones, and only blocks that hold data have bits at all. */
  ghost predicate Bits(t: Table) {
    && t.soft <= t.bits
    && (forall a :: a in t.bits ==> a.block < |t.blocks| && a.page < t.cpb)
    && (forall a :: a in t.bits ==> MayHoldData(t.blocks[a.block].state))
    && (forall b :: 0 <= b < |t.blocks| ==>
          && t.blocks[b].pagesInUse == |InBlock(t.bits, b)|
          && t.blocks[b].softDel == |InBlock(t.soft, b)|)
  }

  predicate MayHoldData(s: BlockState) { s == Allocating || s == Full || s == Collecting }

  /** At most one block is being allocated from, and it has no bit at or past alloc_page. */
  ghost predicate AllocPoint(t: Table) {
    && (forall b :: 0 <= b < |t.blocks| ==>
          (t.blocks[b].state == Allocating <==> t.allocBlock == Some(b)))
    && (t.allocBlock.Some? ==>
          && t.allocBlock.value < |t.blocks|
          && t.allocPage < t.cpb
          && (forall a :: a in t.bits && a.block == t.allocBlock.value ==> a.page < t.allocPage))
  }

  /** Sequence numbers identify the blocks in use, and none is ahead of the device's. */
  ghost predicate SeqNumbers(t: Table) {
    && LOWEST_SEQUENCE <= t.seqNumber
    && (forall b :: 0 <= b < |t.blocks| ==> t.blocks[b].seqNumber <= t.seqNumber)
    && (forall b :: 0 <= b < |t.blocks| && MayHoldData(t.blocks[b].state) ==>
          LOWEST_SEQUENCE <= t.blocks[b].seqNumber)
    && (forall b, c :: 0 <= b < |t.blocks| && 0 <= c < |t.blocks| && b != c
          && MayHoldData(t.blocks[b].state) && MayHoldData(t.blocks[c].state)
          ==> t.blocks[b].seqNumber != t.blocks[c].seqNumber)
    && (forall b :: 0 <= b < |t.blocks| && t.blocks[b].state == Allocating
          ==> t.blocks[b].seqNumber == t.seqNumber)
  }

  ghost predicate Inv(t: Table) {
    t.cpb > 0 && Bits(t) && AllocPoint(t) && SeqNumbers(t) && Counters(t)
  }

  // ----- operations, as functions of the whole table -----

  function SetBlock(t: Table, i: nat, b: BlockInfo): Table
    requires i < |t.blocks|
  {
    t.(blocks := t.blocks[i := b])
  }

  /** The cyclic search of yaffs_find_alloc_block: where the finder stops, and whether the
      block there is EMPTY. */
  function Probe(blocks: seq<BlockInfo>, from: nat, tries: nat): (r: (nat, bool))
    ensures r.1 ==> r.0 < |blocks| && blocks[r.0].state == Empty
    decreases tries
  {
    if tries == 0 || |blocks| == 0 then (from, false)
    else
      var j := NextBlock(from, |blocks|);
      if blocks[j].state == Empty then (j, true) else Probe(blocks, j, tries - 1)
  }

  function NextBlock(from: nat, n: nat): (j: nat)
    requires n > 0
    ensures j < n
  {
    if from + 1 < n then from + 1 else 0
  }

  /** yaffs_find_alloc_block */
  function TakeBlock(t: Table): Table {
    if t.nErased < 1 then t.(allocBlock := None, allocPage := 0)
    else
      var (j, found) := Probe(t.blocks, t.finder, |t.blocks|);
      if !found then t.(finder := j, allocBlock := None, allocPage := 0)
      else
        SetBlock(t, j, t.blocks[j].(state := Allocating, seqNumber := t.seqNumber + 1))
        .(finder := j, seqNumber := t.seqNumber + 1, nErased := t.nErased - 1,
          allocBlock := Some(j), allocPage := 0)
  }

  /** The second half of yaffs_alloc_chunk: the next page of the allocation block. */
  function TakePage(t: Table): (Table, Option<Addr>) {
    if t.allocBlock.None? || t.allocBlock.value >= |t.blocks| then (t, None)
    else
      var i := t.allocBlock.value;
      var a := Addr(i, t.allocPage);
      var full := t.allocPage + 1 >= t.cpb;
      var b := t.blocks[i];
      (SetBlock(t, i, b.(pagesInUse := b.pagesInUse + 1, state := if full then Full else b.state))
       .(bits := t.bits + {a}, nFree := t.nFree - 1, allocPage := t.allocPage + 1,
         allocBlock := if full then None else t.allocBlock),
       Some(a))
  }

  /** yaffs_alloc_chunk; `reserveOk` is the outcome of the reserve check. */
  function AllocChunk(t: Table, reserveOk: bool): (Table, Option<Addr>) {
    var t1 := if t.allocBlock.None? then TakeBlock(t) else t;
    if reserveOk then TakePage(t1) else (t1, None)
  }

  /** yaffs_block_became_dirty; a block whose erasure fails is retired. */
  function BecameDirty(t: Table, i: nat, eraseOk: bool): Table
    requires i < |t.blocks|
  {
    if eraseOk then
      SetBlock(t, i, CLEAN_BLOCK)
      .(nErased := t.nErased + 1, bits := t.bits - InBlock(t.bits, i))
    else
      SetBlock(t, i, t.blocks[i].(state := Dead)).(nFree := t.nFree - t.cpb)
  }

  /** The bookkeeping part of yaffs_chunk_del, before any erasure. */
  function ClearBit(t: Table, a: Addr): Table
    requires a.block < |t.blocks|
  {
    var b := t.blocks[a.block];
    SetBlock(t, a.block, b.(pagesInUse := b.pagesInUse - 1))
    .(bits := t.bits - {a}, nFree := t.nFree + 1)
  }

  predicate ErasesNow(b: BlockInfo) {
    b.pagesInUse == 0 && !b.hasShrinkHdr && b.state != Allocating
  }

  /** yaffs_chunk_del */
  function ChunkDel(t: Table, a: Addr, eraseOk: bool): Table {
    if a.block >= |t.blocks| || !MayHoldData(t.blocks[a.block].state) then t
    else
      var t1 := ClearBit(t, a);
      if ErasesNow(t1.blocks[a.block]) then BecameDirty(t1, a.block, eraseOk) else t1
  }

  /** yaffs_soft_del_chunk */
  function SoftDel(t: Table, a: Addr): Table {
    if a.block >= |t.blocks| then t
    else
      var b := t.blocks[a.block];
      SetBlock(t, a.block, b.(softDel := b.softDel + 1)).(soft := t.soft + {a}, nFree := t.nFree + 1)
  }

  /** What gc does to a data chunk of a soft deleted file before deleting it for good. */
  function Unsoften(t: Table, a: Addr): Table {
    if a.block >= |t.blocks| then t
    else
      var b := t.blocks[a.block];
      SetBlock(t, a.block, b.(softDel := b.softDel - 1)).(soft := t.soft - {a}, nFree := t.nFree - 1)
  }

  /** yaffs_skip_rest_of_block */
  function SkipRest(t: Table): Table {
    if t.allocBlock.Some? && t.allocBlock.value < |t.blocks|
       && t.blocks[t.allocBlock.value].state == Allocating then
      var i := t.allocBlock.value;
      SetBlock(t, i, t.blocks[i].(state := Full)).(allocBlock := None)
    else t
  }

  /** Entry of yaffs_gc_block: the block starts collecting and loses its shrink protection. */
  function GcBegin(t: Table, i: nat): Table {
    if i >= |t.blocks| then t
    else
      var b := t.blocks[i];
      SetBlock(t, i, b.(state := if b.state == Full then Collecting else b.state, hasShrinkHdr := false))
  }

  /** Exit of yaffs_gc_block: an unfinished collection goes back to FULL. */
  function GcEnd(t: Table, i: nat): Table {
    if i < |t.blocks| && t.blocks[i].state == Collecting then
      SetBlock(t, i, t.blocks[i].(state := Full))
    else t
  }

  /** yaffs_gc_block on a FULL block without chunks, which only a shrink header kept from erasure. */
  function GcEmpty(t: Table, i: nat, eraseOk: bool): Table {
    var g := GcBegin(t, i);
    if i < |g.blocks| then GcEnd(BecameDirty(g, i, eraseOk), i) else g
  }

  function MarkShrink(t: Table, i: nat): Table {
    if i >= |t.blocks| then t else SetBlock(t, i, t.blocks[i].(hasShrinkHdr := true))
  }

  /** One turn of the loop in yaffs_checkpt_erase. */
  function CheckptEraseOne(t: Table, i: nat, eraseOk: bool): (u: Table)
    requires i < |t.blocks|
    ensures |u.blocks| == |t.blocks| && u.checkptOpen == t.checkptOpen
  {
    if t.blocks[i].state != Checkpoint then t
    else if eraseOk then
      SetBlock(t, i, t.blocks[i].(state := Empty)).(nErased := t.nErased + 1, nFree := t.nFree + t.cpb)
    else SetBlock(t, i, t.blocks[i].(state := Dead))
  }

  /** yaffs_checkpt_erase from block `i` on; `eraseOk` lists the blocks that erase. */
  function CheckptErase(t: Table, i: nat, eraseOk: set<nat>): Table
    decreases |t.blocks| - i
  {
    if i >= |t.blocks| then t else CheckptErase(CheckptEraseOne(t, i, i in eraseOk), i + 1, eraseOk)
  }

  /** yaffs2_checkpt_open for writing */
  function CheckptOpen(t: Table, eraseOk: set<nat>): Table {
    CheckptErase(t, 0, eraseOk).(checkptOpen := true, inCheckpt := 0)
  }

  /** yaffs2_checkpt_invalidate: the blocks of a stale checkpoint are erased. */
  function CheckptInvalidate(t: Table, eraseOk: set<nat>): Table { CheckptErase(t, 0, eraseOk).(inCheckpt := 0) }

  /** The first chunk flushed to an erased block turns it into a checkpoint block. */
  function CheckptTake(t: Table, i: nat): Table {
    if i >= |t.blocks| then t
    else SetBlock(t, i, t.blocks[i].(state := Checkpoint)).(inCheckpt := t.inCheckpt + 1)
  }

  /** The settlement in yaffs_checkpt_close */
  function CheckptClose(t: Table): Table {
    t.(nFree := t.nFree - t.inCheckpt * t.cpb, nErased := t.nErased - t.inCheckpt, checkptOpen := false)
  }

  // ----- every operation keeps the accounting exact -----

  /** Changing one block's record moves both counters by that block's own difference. */
  lemma CountersUpdate(t: Table, u: Table, i: nat, b: BlockInfo)
    requires Counters(t) && i < |t.blocks| && u.blocks == t.blocks[i := b]
    requires u.cpb == t.cpb && u.checkptOpen == t.checkptOpen && u.inCheckpt == t.inCheckpt
    requires u.nFree == t.nFree - FreeIn(t.blocks[i], t.cpb) + FreeIn(b, t.cpb)
    requires u.nErased == t.nErased - (if t.blocks[i].state == Empty then 1 else 0)
                        + (if b.state == Empty then 1 else 0)
    ensures Counters(u)
  {
    RecountUpdate(t.blocks, t.cpb, i, b);
    CountEmptyUpdate(t.blocks, i, b);
  }

  /** Changing one block's record without touching the bitmap keeps the bitmap facts. */
  lemma BitsKept(t: Table, u: Table, i: nat, b: BlockInfo)
    requires Bits(t) && i < |t.blocks| && u.blocks == t.blocks[i := b]
    requires u.cpb == t.cpb && u.bits == t.bits && u.soft == t.soft
    requires b.pagesInUse == t.blocks[i].pagesInUse && b.softDel == t.blocks[i].softDel
    requires MayHoldData(b.state) || b.pagesInUse == 0
    ensures Bits(u)
  {
    if b.pagesInUse == 0 {
      assert InBlock(t.bits, i) == {};
      forall a | a in t.bits ensures a.block != i { assert a.block == i ==> a in InBlock(t.bits, i); }
    }
  }

  lemma InBlockAdd(s: set<Addr>, a: Addr, b: nat)
    requires a !in s
    ensures |InBlock(s + {a}, b)| == |InBlock(s, b)| + if a.block == b then 1 else 0
  {
    if a.block == b {
      assert InBlock(s + {a}, b) == InBlock(s, b) + {a};
    } else {
      assert InBlock(s + {a}, b) == InBlock(s, b);
    }
  }

  lemma InBlockRemove(s: set<Addr>, a: Addr, b: nat)
    requires a in s
    ensures |InBlock(s - {a}, b)| == |InBlock(s, b)| - if a.block == b then 1 else 0
  {
    assert s == (s - {a}) + {a};
    InBlockAdd(s - {a}, a, b);
  }

  lemma {:induction false} ProbeFinds(blocks: seq<BlockInfo>, from: nat, tries: nat, k: nat)
    requires k < |blocks| && blocks[k].state == Empty
    requires from < |blocks|
    requires tries >= if k > from then k - from else |blocks| + k - from
    ensures Probe(blocks, from, tries).1
    decreases tries
  {
    var j := NextBlock(from, |blocks|);
    if blocks[j].state != Empty {
      ProbeFinds(blocks, j, tries - 1, k);
    }
  }

  /** "no more erased blocks, but there should have been some" cannot happen. */
  lemma TakeBlockSucceeds(t: Table)
    requires Counters(t) && !t.checkptOpen && t.nErased >= 1
    requires t.finder < |t.blocks|
    ensures TakeBlock(t).allocBlock.Some?
  {
    CountEmptyPositive(t.blocks);
    var k :| 0 <= k < |t.blocks| && t.blocks[k].state == Empty;
    ProbeFinds(t.blocks, t.finder, |t.blocks|, k);
  }

  lemma TakeBlockOrder(t: Table)
    requires AllocPoint(t) && SeqNumbers(t) && Bits(t) && t.cpb > 0 && t.allocBlock.None?
    ensures AllocPoint(TakeBlock(t)) && SeqNumbers(TakeBlock(t))
  {
    var (j, found) := Probe(t.blocks, t.finder, |t.blocks|);
    if t.nErased >= 1 && found {
      assert forall a :: a in t.bits ==> a.block != j;
    }
  }

  lemma TakeBlockInv(t: Table)
    requires Inv(t) && t.allocBlock.None?
    ensures Inv(TakeBlock(t))
  {
    TakeBlockOrder(t);
    var (j, found) := Probe(t.blocks, t.finder, |t.blocks|);
    if t.nErased >= 1 && found {
      var b := t.blocks[j].(state := Allocating, seqNumber := t.seqNumber + 1);
      NoBits(t, j);
      CountersUpdate(t, TakeBlock(t), j, b);
      BitsKept(t, TakeBlock(t), j, b);
    }
  }

  lemma TakePageBits(t: Table)
    requires Bits(t) && AllocPoint(t)
    ensures Bits(TakePage(t).0)
  {
    if t.allocBlock.Some? {
      var a := Addr(t.allocBlock.value, t.allocPage);
      forall c ensures |InBlock(t.bits + {a}, c)| == |InBlock(t.bits, c)| + if c == a.block then 1 else 0 {
        InBlockAdd(t.bits, a, c);
      }
    }
  }

  lemma TakePageInv(t: Table)
    requires Inv(t)
    ensures Inv(TakePage(t).0)
  {
    if t.allocBlock.Some? {
      var i := t.allocBlock.value;
      var a := Addr(i, t.allocPage);
      var b := TakePage(t).0.blocks[i];
      CountersUpdate(t, TakePage(t).0, i, b);
      TakePageBits(t);
    }
  }

  lemma AllocChunkInv(t: Table, reserveOk: bool)
    requires Inv(t)
    ensures Inv(AllocChunk(t, reserveOk).0)
  {
    if t.allocBlock.None? {
      TakeBlockInv(t);
      TakePageInv(TakeBlock(t));
    } else {
      TakePageInv(t);
    }
  }

  /** A block without bits can be emptied or retired without touching the bitmap. */
  lemma NoBitsToClear(t: Table, i: nat)
    requires Bits(t) && i < |t.blocks| && t.blocks[i].pagesInUse == 0
    ensures t.bits - InBlock(t.bits, i) == t.bits && t.blocks[i].softDel == 0
  {
    assert InBlock(t.bits, i) == {};
    assert InBlock(t.soft, i) <= InBlock(t.bits, i);
  }

  lemma BecameDirtyOrder(t: Table, i: nat, eraseOk: bool)
    requires AllocPoint(t) && SeqNumbers(t) && i < |t.blocks| && ErasesNow(t.blocks[i])
    ensures AllocPoint(BecameDirty(t, i, eraseOk)) && SeqNumbers(BecameDirty(t, i, eraseOk))
  {
  }

  lemma BecameDirtyInv(t: Table, i: nat, eraseOk: bool)
    requires Inv(t) && i < |t.blocks|
    requires MayHoldData(t.blocks[i].state) && ErasesNow(t.blocks[i])
    ensures Inv(BecameDirty(t, i, eraseOk))
  {
    hide Bits, AllocPoint, SeqNumbers, Counters;
    BecameDirtyOrder(t, i, eraseOk);
    NoBitsToClear(t, i);
    var u := BecameDirty(t, i, eraseOk);
    CountersUpdate(t, u, i, u.blocks[i]);
    BitsKept(t, u, i, u.blocks[i]);
  }

  lemma ClearBitBits(t: Table, a: Addr)
    requires Bits(t) && a in t.bits && a !in t.soft
    ensures Bits(ClearBit(t, a))
  {
    forall c ensures |InBlock(t.bits - {a}, c)| == |InBlock(t.bits, c)| - if c == a.block then 1 else 0 {
      InBlockRemove(t.bits, a, c);
    }
  }

  lemma ClearBitInv(t: Table, a: Addr)
    requires Inv(t) && a in t.bits && a !in t.soft
    ensures Inv(ClearBit(t, a))
  {
    ClearBitBits(t, a);
    CountersUpdate(t, ClearBit(t, a), a.block, ClearBit(t, a).blocks[a.block]);
  }

  lemma ChunkDelInv(t: Table, a: Addr, eraseOk: bool)
    requires Inv(t) && a in t.bits && a !in t.soft
    ensures Inv(ChunkDel(t, a, eraseOk))
  {
    ClearBitInv(t, a);
    var t1 := ClearBit(t, a);
    if ErasesNow(t1.blocks[a.block]) { BecameDirtyInv(t1, a.block, eraseOk); }
  }

  lemma SoftDelBits(t: Table, a: Addr)
    requires Bits(t) && a in t.bits && a !in t.soft
    ensures Bits(SoftDel(t, a))
  {
    forall c ensures |InBlock(t.soft + {a}, c)| == |InBlock(t.soft, c)| + if c == a.block then 1 else 0 {
      InBlockAdd(t.soft, a, c);
    }
  }

  lemma SoftDelInv(t: Table, a: Addr)
    requires Inv(t) && a in t.bits && a !in t.soft
    ensures Inv(SoftDel(t, a))
  {
    SoftDelBits(t, a);
    CountersUpdate(t, SoftDel(t, a), a.block, SoftDel(t, a).blocks[a.block]);
  }

  lemma UnsoftenBits(t: Table, a: Addr)
    requires Bits(t) && a in t.soft
    ensures Bits(Unsoften(t, a))
  {
    forall c ensures |InBlock(t.soft - {a}, c)| == |InBlock(t.soft, c)| - if c == a.block then 1 else 0 {
      InBlockRemove(t.soft, a, c);
    }
  }

  lemma UnsoftenInv(t: Table, a: Addr)
    requires Inv(t) && a in t.soft
    ensures Inv(Unsoften(t, a))
  {
    UnsoftenBits(t, a);
    CountersUpdate(t, Unsoften(t, a), a.block, Unsoften(t, a).blocks[a.block]);
  }

  lemma SkipRestInv(t: Table)
    requires Inv(t)
    ensures Inv(SkipRest(t)) && SkipRest(t).allocBlock.None?
  {
    if t.allocBlock.Some? {
      var i := t.allocBlock.value;
      CountersUpdate(t, SkipRest(t), i, t.blocks[i].(state := Full));
      BitsKept(t, SkipRest(t), i, t.blocks[i].(state := Full));
    }
  }

  lemma GcBeginInv(t: Table, i: nat)
    requires Inv(t) && i < |t.blocks|
    ensures Inv(GcBegin(t, i))
  {
    var b := GcBegin(t, i).blocks[i];
    CountersUpdate(t, GcBegin(t, i), i, b);
    BitsKept(t, GcBegin(t, i), i, b);
  }

  lemma GcEndInv(t: Table, i: nat)
    requires Inv(t) && i < |t.blocks|
    ensures Inv(GcEnd(t, i))
  {
    var b := GcEnd(t, i).blocks[i];
    CountersUpdate(t, GcEnd(t, i), i, b);
    BitsKept(t, GcEnd(t, i), i, b);
  }

  lemma GcEmptyInv(t: Table, i: nat, eraseOk: bool)
    requires Inv(t) && i < |t.blocks| && t.blocks[i].state == Full && t.blocks[i].pagesInUse == 0
    ensures Inv(GcEmpty(t, i, eraseOk))
  {
    hide Inv;
    GcBeginInv(t, i);
    BecameDirtyInv(GcBegin(t, i), i, eraseOk);
    GcEndInv(BecameDirty(GcBegin(t, i), i, eraseOk), i);
  }

  lemma MarkShrinkInv(t: Table, i: nat)
    requires Inv(t)
    ensures Inv(MarkShrink(t, i))
  {
    if i < |t.blocks| {
      var b := MarkShrink(t, i).blocks[i];
      CountersUpdate(t, MarkShrink(t, i), i, b);
      BitsKept(t, MarkShrink(t, i), i, b);
    }
  }

  lemma CheckptEraseOneInv(t: Table, i: nat, eraseOk: bool)
    requires Inv(t) && i < |t.blocks|
    ensures Inv(CheckptEraseOne(t, i, eraseOk))
  {
    hide Bits, Counters;
    if t.blocks[i].state == Checkpoint {
      NoBits(t, i);
      var u := CheckptEraseOne(t, i, eraseOk);
      CountersUpdate(t, u, i, u.blocks[i]);
      BitsKept(t, u, i, u.blocks[i]);
    }
  }

  lemma {:induction false} CheckptEraseInv(t: Table, i: nat, eraseOk: set<nat>)
    requires Inv(t)
    ensures Inv(CheckptErase(t, i, eraseOk)) && CheckptErase(t, i, eraseOk).checkptOpen == t.checkptOpen
    decreases |t.blocks| - i
  {
    hide Inv;
    if i < |t.blocks| {
      CheckptEraseOneInv(t, i, i in eraseOk);
      CheckptEraseInv(CheckptEraseOne(t, i, i in eraseOk), i + 1, eraseOk);
    }
  }

  lemma NoBits(t: Table, i: nat)
    requires Bits(t) && i < |t.blocks| && !MayHoldData(t.blocks[i].state)
    ensures t.blocks[i].pagesInUse == 0 && t.blocks[i].softDel == 0
  {
    assert InBlock(t.bits, i) == {};
    assert InBlock(t.soft, i) == {};
  }

  lemma CheckptInvalidateInv(t: Table, eraseOk: set<nat>)
    requires Inv(t) && !t.checkptOpen
    ensures Inv(CheckptInvalidate(t, eraseOk))
  {
    CheckptEraseInv(t, 0, eraseOk);
  }

  lemma CheckptOpenInv(t: Table, eraseOk: set<nat>)
    requires Inv(t) && !t.checkptOpen
    ensures Inv(CheckptOpen(t, eraseOk))
  {
    CheckptEraseInv(t, 0, eraseOk);
  }

  lemma CheckptTakeInv(t: Table, i: nat)
    requires Inv(t) && t.checkptOpen && i < |t.blocks| && t.blocks[i].state == Empty
    ensures Inv(CheckptTake(t, i))
  {
    NoBits(t, i);
    CheckptTakeCounters(t, i);
    BitsKept(t, CheckptTake(t, i), i, CheckptTake(t, i).blocks[i]);
  }

  lemma CheckptTakeCounters(t: Table, i: nat)
    requires Counters(t) && t.checkptOpen && i < |t.blocks|
    requires t.blocks[i].state == Empty && t.blocks[i].pagesInUse == t.blocks[i].softDel == 0
    ensures Counters(CheckptTake(t, i))
  {
    var b := CheckptTake(t, i).blocks[i];
    RecountUpdate(t.blocks, t.cpb, i, b);
    CountEmptyUpdate(t.blocks, i, b);
    assert (t.inCheckpt + 1) * t.cpb == t.inCheckpt * t.cpb + t.cpb;
  }

  lemma CheckptCloseInv(t: Table)
    requires Inv(t) && t.checkptOpen
    ensures Inv(CheckptClose(t)) && !CheckptClose(t).checkptOpen
  {
  }

  // ----- all runs -----

  datatype Op =
    | Alloc(reserveOk: bool)
    | Del(chunk: Addr, eraseOk: bool)
    | SoftDelete(chunk: Addr)
    | Purge(chunk: Addr, eraseOk: bool)
    | Skip
    | BeginGc(block: nat)
    | EndGc(block: nat)
    | Shrink(block: nat)
    | CollectEmpty(block: nat, eraseOk: bool)
    | Invalidate(erasable: set<nat>)
    | OpenCheckpt(erasable: set<nat>)
    | TakeCheckpt(block: nat)
    | CloseCheckpt

  /** Chunks are deleted once, soft deletion comes before purging, and a checkpoint takes
      only erased blocks between its open and its close. */
  predicate Enabled(t: Table, op: Op) {
    match op
    case Alloc(_) => true
    case Del(a, _) => a in t.bits && a !in t.soft
    case SoftDelete(a) => a in t.bits && a !in t.soft
    case Purge(a, _) => a in t.soft
    case Skip => true
    case BeginGc(i) => i < |t.blocks|
    case EndGc(i) => i < |t.blocks|
    case Shrink(_) => true
    case CollectEmpty(i, _) => i < |t.blocks| && t.blocks[i].state == Full && t.blocks[i].pagesInUse == 0
    case Invalidate(_) => !t.checkptOpen
    case OpenCheckpt(_) => !t.checkptOpen
    case TakeCheckpt(i) => t.checkptOpen && i < |t.blocks| && t.blocks[i].state == Empty
    case CloseCheckpt => t.checkptOpen
  }

  function Apply(t: Table, op: Op): Table {
    match op
    case Alloc(ok) => AllocChunk(t, ok).0
    case Del(a, ok) => ChunkDel(t, a, ok)
    case SoftDelete(a) => SoftDel(t, a)
    case Purge(a, ok) => ChunkDel(Unsoften(t, a), a, ok)
    case Skip => SkipRest(t)
    case BeginGc(i) => GcBegin(t, i)
    case EndGc(i) => GcEnd(t, i)
    case Shrink(i) => MarkShrink(t, i)
    case CollectEmpty(i, ok) => GcEmpty(t, i, ok)
    case Invalidate(ok) => CheckptInvalidate(t, ok)
    case OpenCheckpt(ok) => CheckptOpen(t, ok)
    case TakeCheckpt(i) => CheckptTake(t, i)
    case CloseCheckpt => CheckptClose(t)
  }

  lemma ApplyInv(t: Table, op: Op)
    requires Inv(t) && Enabled(t, op)
    ensures Inv(Apply(t, op))
  {
    hide AllocChunk, SoftDel, SkipRest, GcBegin, GcEnd, MarkShrink, CheckptErase, GcEmpty, AllocPoint;
    hide SeqNumbers, Counters;
    match op
    case Alloc(ok) => AllocChunkInv(t, ok);
    case Del(a, ok) => ChunkDelInv(t, a, ok);
    case SoftDelete(a) => SoftDelInv(t, a);
    case Purge(a, ok) => UnsoftenInv(t, a); ChunkDelInv(Unsoften(t, a), a, ok);
    case Skip => SkipRestInv(t);
    case BeginGc(i) => GcBeginInv(t, i);
    case EndGc(i) => GcEndInv(t, i);
    case Shrink(i) => MarkShrinkInv(t, i);
    case CollectEmpty(i, ok) => GcEmptyInv(t, i, ok);
    case Invalidate(ok) => CheckptInvalidateInv(t, ok);
    case OpenCheckpt(ok) => CheckptOpenInv(t, ok);
    case TakeCheckpt(i) => CheckptTakeInv(t, i);
    case CloseCheckpt => CheckptCloseInv(t);
  }

  predicate RunsTo(t: Table, ops: seq<Op>, u: Table)
    decreases |ops|
  {
    if ops == [] then t == u
    else Enabled(t, ops[0]) && RunsTo(Apply(t, ops[0]), ops[1..], u)
  }

  /** A freshly formatted device. */
  function Formatted(cpb: nat, n: nat): Table {
    Table(cpb, seq(n, _ => CLEAN_BLOCK), {}, {}, n * cpb, n, None, 0, LOWEST_SEQUENCE, 0, false, 0)
  }

  lemma {:induction false} FormattedInv(cpb: nat, n: nat)
    requires cpb > 0
    ensures Inv(Formatted(cpb, n))
  {
    FormattedCounters(cpb, n);
    forall b ensures InBlock({}, b) == {} {}
  }

  lemma {:induction false} FormattedCounters(cpb: nat, n: nat)
    ensures Recount(seq(n, _ => CLEAN_BLOCK), cpb) == n * cpb
    ensures CountEmpty(seq(n, _ => CLEAN_BLOCK)) == n
  {
    if n > 0 {
      FormattedCounters(cpb, n - 1);
      assert seq(n, _ => CLEAN_BLOCK)[..n - 1] == seq(n - 1, _ => CLEAN_BLOCK);
      assert n * cpb == (n - 1) * cpb + cpb;
    }
  }

  /** The space accounting theorem: after any run from a formatted device the bitmap, the
      block records and the counters agree, exactly so whenever no checkpoint is open. */
  lemma {:induction false} AccountingHolds(cpb: nat, n: nat, ops: seq<Op>, u: Table)
    requires cpb > 0 && RunsTo(Formatted(cpb, n), ops, u)
    ensures Inv(u)
    ensures !u.checkptOpen ==> u.nFree == Recount(u.blocks, u.cpb) && u.nErased == CountEmpty(u.blocks)
  {
    hide Formatted, RunsTo, Bits, AllocPoint, SeqNumbers;
    FormattedInv(cpb, n);
    RunInv(Formatted(cpb, n), ops, u);
  }

  lemma {:induction false} RunInv(t: Table, ops: seq<Op>, u: Table)
    requires Inv(t) && RunsTo(t, ops, u)
    ensures Inv(u)
    decreases |ops|
  {
    hide Inv, Apply, Enabled;
    if ops != [] {
      ApplyInv(t, ops[0]);
      RunInv(Apply(t, ops[0]), ops[1..], u);
    }
  }

  // ----- the device, updated in place -----

  class BlockDev {
    const cpb: nat
    var blocks: seq<BlockInfo>
    var bits: set<Addr>
    ghost var soft: set<Addr>
    var nFree: int
    var nErased: int
    var allocBlock: Option<nat>
    var allocPage: nat
    var seqNumber: nat
    var finder: nat
    var checkptOpen: bool
    var inCheckpt: nat

    ghost function View(): Table
      reads this
    {
      Table(cpb, blocks, bits, soft, nFree, nErased, allocBlock, allocPage, seqNumber, finder,
            checkptOpen, inCheckpt)
    }

    constructor (cpb: nat, n: nat)
      ensures View() == Formatted(cpb, n)
    {
      this.cpb := cpb;
      blocks := seq(n, _ => CLEAN_BLOCK);
      bits, soft := {}, {};
      nFree, nErased := n * cpb, n;
      allocBlock, allocPage, seqNumber, finder := None, 0, LOWEST_SEQUENCE, 0;
      checkptOpen, inCheckpt := false, 0;
    }

    method FindAllocBlock()
      modifies this
      ensures View() == TakeBlock(old(View()))
    {
      allocPage := 0;
      allocBlock := None;
      if nErased < 1 { return; }
      var i, n := 0, |blocks|;
      while i < n
        invariant 0 <= i <= n == |blocks|
        invariant Probe(blocks, old(finder), n) == Probe(blocks, finder, n - i)
        invariant View() == old(View()).(allocBlock := None, allocPage := 0, finder := finder)
      {
        finder := NextBlock(finder, n);
        if blocks[finder].state == Empty {
          seqNumber := seqNumber + 1;
          blocks := blocks[finder := blocks[finder].(state := Allocating, seqNumber := seqNumber)];
          nErased := nErased - 1;
          allocBlock := Some(finder);
          return;
        }
        i := i + 1;
      }
    }

    method Alloc(reserveOk: bool) returns (r: Option<Addr>)
      modifies this
      ensures (View(), r) == AllocChunk(old(View()), reserveOk)
    {
      if allocBlock.None? { FindAllocBlock(); }
      if !reserveOk || allocBlock.None? || allocBlock.value >= |blocks| { return None; }
      var i := allocBlock.value;
      r := Some(Addr(i, allocPage));
      var b := blocks[i];
      b := b.(pagesInUse := b.pagesInUse + 1);
      bits := bits + {Addr(i, allocPage)};
      allocPage := allocPage + 1;
      nFree := nFree - 1;
      if allocPage >= cpb {
        b := b.(state := Full);
        allocBlock := None;
      }
      blocks := blocks[i := b];
    }

    method BlockBecameDirty(i: nat, eraseOk: bool)
      requires i < |blocks|
      modifies this
      ensures View() == BecameDirty(old(View()), i, eraseOk)
    {
      if !eraseOk {
        nFree := nFree - cpb;
        blocks := blocks[i := blocks[i].(state := Dead)];
        return;
      }
      nErased := nErased + 1;
      blocks := blocks[i := CLEAN_BLOCK];
      bits := set a | a in bits && a.block != i;
    }

    method DeleteChunk(a: Addr, eraseOk: bool)
      modifies this
      ensures View() == ChunkDel(old(View()), a, eraseOk)
    {
      if a.block >= |blocks| || !MayHoldData(blocks[a.block].state) { return; }
      nFree := nFree + 1;
      bits := bits - {a};
      var b := blocks[a.block];
      blocks := blocks[a.block := b.(pagesInUse := b.pagesInUse - 1)];
      if ErasesNow(blocks[a.block]) { BlockBecameDirty(a.block, eraseOk); }
    }

    method SoftDeleteChunk(a: Addr)
      modifies this
      ensures View() == SoftDel(old(View()), a)
    {
      if a.block >= |blocks| { return; }
      var b := blocks[a.block];
      blocks := blocks[a.block := b.(softDel := b.softDel + 1)];
      nFree := nFree + 1;
      soft := soft + {a};
    }

    method SkipRestOfBlock()
      modifies this
      ensures View() == SkipRest(old(View()))
    {
      if allocBlock.Some? && allocBlock.value < |blocks| {
        var i := allocBlock.value;
        if blocks[i].state == Allocating {
          blocks := blocks[i := blocks[i].(state := Full)];
          allocBlock := None;
        }
      }
    }

    method EraseCheckpoint(eraseOk: set<nat>)
      modifies this
      ensures View() == CheckptErase(old(View()), 0, eraseOk).(inCheckpt := 0)
    {
      var i := 0;
      while i < |blocks|
        invariant CheckptErase(View(), i, eraseOk) == CheckptErase(old(View()), 0, eraseOk)
      {
        if blocks[i].state == Checkpoint {
          if i in eraseOk {
            blocks := blocks[i := blocks[i].(state := Empty)];
            nErased := nErased + 1;
            nFree := nFree + cpb;
          } else {
            blocks := blocks[i := blocks[i].(state := Dead)];
          }
        }
        i := i + 1;
      }
      inCheckpt := 0;
    }

    method CountFreeChunks() returns (n: int)
      ensures n == Recount(blocks, cpb)
    {
      n := 0;
      var b := 0;
      while b < |blocks|
        invariant 0 <= b <= |blocks|
        invariant n == Recount(blocks[..b], cpb)
      {
        if HoldsFreeSpace(blocks[b].state) {
          n := n + (cpb - blocks[b].pagesInUse + blocks[b].softDel);
        }
        assert blocks[..b + 1][..b] == blocks[..b];
        b := b + 1;
      }
      assert blocks[..b] == blocks;
    }
  }
}
