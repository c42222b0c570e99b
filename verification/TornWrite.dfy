/** A write call of two chunks with a collection between them, after which a mount loses the first chunk.
    Two pages to a block, four blocks, four bytes to a chunk. */
module TornWrite {
  import opened Basics
  import opened BlockTable
  import opened FlashLog
  import opened FlashOps
  import opened MountScan
  import opened FlashRuns
  import opened FlashRecovery

  const WORD: Bytes := [1, 2, 3, 4]
  const FIRST := LOWEST_SEQUENCE + 1

  /** Files 1 and 2 are created, which fills a block; file 1 is written to: one chunk, then the collection of
      that block, which copies both headers, then the other chunk. */
  const RUN: seq<FlashRuns.Op> := [
    CreateFile(1, [], true), CreateFile(2, [], true), WriteChunk(1, 1, 4, WORD, true),
    GcStart(1), GcMove(Addr(1, 0)), GcMove(Addr(1, 1)), GcFinish(1),
    WriteChunk(1, 2, 4, WORD, true), FlashRuns.EndWrite(1)]

  function Block(state: BlockState, seqNumber: nat, inUse: nat): BlockInfo {
    BlockInfo(state, seqNumber, inUse, 0, false)
  }

  function Device(blocks: seq<BlockInfo>, bits: set<Addr>, nFree: int, nErased: int, alloc: Option<nat>, page: nat,
      seqNumber: nat, finder: nat, flash: map<Addr, Page>, files: map<nat, File>): Sys
  {
    Sys(Dev(Table(2, blocks, bits, {}, nFree, nErased, alloc, page, seqNumber, finder, false, 0), flash, files, 4),
        Nothing)
  }

  function Head(o: nat, seqNumber: nat): Page { Header(o, 0, false, seqNumber, []) }

  /** The state after `k` steps. */
  function After(k: nat): Sys {
    var e := CLEAN_BLOCK;
    var h, g := Head(1, FIRST), Head(2, FIRST);
    var c := Data(1, 1, 4, FIRST + 1, WORD);
    var two := File(Addr(1, 1), 0, 0, {}, map[]);
    var full := Block(Full, FIRST + 1, 2);
    if k == 0 then Device([e, e, e, e], {}, 8, 4, None, 0, FIRST - 1, 0, map[], map[])
    else if k == 1 then
      Device([e, Block(Allocating, FIRST, 1), e, e], {Addr(1, 0)}, 7, 3, Some(1), 1, FIRST, 1,
             map[Addr(1, 0) := h], map[1 := File(Addr(1, 0), 0, 0, {}, map[])])
    else if k == 2 then
      Device([e, Block(Full, FIRST, 2), e, e], {Addr(1, 0), Addr(1, 1)}, 6, 3, None, 2, FIRST, 1,
             map[Addr(1, 0) := h, Addr(1, 1) := g], map[1 := File(Addr(1, 0), 0, 0, {}, map[]), 2 := two])
    else if k == 3 || k == 4 then
      Device([e, Block(if k == 3 then Full else Collecting, FIRST, 2), Block(Allocating, FIRST + 1, 1), e],
             {Addr(1, 0), Addr(1, 1), Addr(2, 0)}, 5, 2, Some(2), 1, FIRST + 1, 2,
             map[Addr(1, 0) := h, Addr(1, 1) := g, Addr(2, 0) := c],
             map[1 := File(Addr(1, 0), 0, 4, {}, map[1 := Addr(2, 0)]), 2 := two])
    else if k == 5 then
      Device([e, Block(Collecting, FIRST, 1), full, e], {Addr(1, 1), Addr(2, 0), Addr(2, 1)}, 5, 2, None, 2,
             FIRST + 1, 2,
             map[Addr(1, 0) := h, Addr(1, 1) := g, Addr(2, 0) := c, Addr(2, 1) := Head(1, FIRST + 1)],
             map[1 := File(Addr(2, 1), 0, 4, {}, map[1 := Addr(2, 0)]), 2 := two])
    else if k <= 7 then
      Device([e, e, full, Block(Allocating, FIRST + 2, 1)], {Addr(2, 0), Addr(2, 1), Addr(3, 0)}, 5, 2, Some(3), 1,
             FIRST + 2, 3,
             map[Addr(2, 0) := c, Addr(2, 1) := Head(1, FIRST + 1), Addr(3, 0) := Head(2, FIRST + 2)],
             map[1 := File(Addr(2, 1), 0, 4, {}, map[1 := Addr(2, 0)]), 2 := two.(hdr := Addr(3, 0))])
    else
      Device([e, e, full, Block(Full, FIRST + 2, 2)], {Addr(2, 0), Addr(2, 1), Addr(3, 0), Addr(3, 1)}, 4, 2, None, 2,
             FIRST + 2, 3,
             map[Addr(2, 0) := c, Addr(2, 1) := Head(1, FIRST + 1), Addr(3, 0) := Head(2, FIRST + 2),
                 Addr(3, 1) := Data(1, 2, 4, FIRST + 2, WORD)],
             map[1 := File(Addr(2, 1), if k == 8 then 0 else 8, 8, {}, map[1 := Addr(2, 0), 2 := Addr(3, 1)]),
                 2 := two.(hdr := Addr(3, 0))])
  }

  lemma Start()
    ensures After(0) == Blank(2, 4, 4)
  {
    assert seq(4, _ => CLEAN_BLOCK) == [CLEAN_BLOCK, CLEAN_BLOCK, CLEAN_BLOCK, CLEAN_BLOCK];
  }

  lemma NoneLate(c: nat)
    ensures var none: set<nat> := {}; none - {c} == none
  {
  }

  lemma Step0()
    ensures Allowed(After(0), RUN[0]) && Step(After(0), RUN[0]) == After(1)
  {
  }

  lemma Step1()
    ensures Allowed(After(1), RUN[1]) && Step(After(1), RUN[1]) == After(2)
  {
  }

  lemma Step2()
    ensures Allowed(After(2), RUN[2]) && Step(After(2), RUN[2]) == After(3)
  {
    NoneLate(1);
  }

  lemma Step3()
    ensures Allowed(After(3), RUN[3]) && Step(After(3), RUN[3]) == After(4)
  {
  }

  /** The first header copied, its original not yet deleted. */
  function CopiedFirst(): Dev {
    Device([CLEAN_BLOCK, Block(Collecting, FIRST, 2), Block(Full, FIRST + 1, 2), CLEAN_BLOCK],
           {Addr(1, 0), Addr(1, 1), Addr(2, 0), Addr(2, 1)}, 4, 2, None, 2, FIRST + 1, 2,
           map[Addr(1, 0) := Head(1, FIRST), Addr(1, 1) := Head(2, FIRST), Addr(2, 0) := Data(1, 1, 4, FIRST + 1, WORD),
               Addr(2, 1) := Head(1, FIRST + 1)],
           map[1 := File(Addr(2, 1), 0, 4, {}, map[1 := Addr(2, 0)]), 2 := File(Addr(1, 1), 0, 0, {}, map[])]).v
  }

  lemma CopyFirst()
    ensures AllocChunk(After(4).v.t, true) == (CopiedFirst().t, Some(Addr(2, 1)))
    ensures LinkHeader(After(4).v, CopiedFirst().t, Addr(2, 1), Head(1, FIRST + 1)) == CopiedFirst()
  {
    var u := AllocChunk(After(4).v.t, true).0;
    assert u.blocks == CopiedFirst().t.blocks;
    assert u.bits == CopiedFirst().t.bits;
  }

  lemma DropFirst()
    ensures Delete(CopiedFirst(), Addr(1, 0)) == After(5).v
  {
  }

  lemma Step4()
    ensures Allowed(After(4), RUN[4]) && Step(After(4), RUN[4]) == After(5)
  {
    CopyFirst();
    DropFirst();
    hide AllocChunk, Delete, LinkHeader;
  }

  /** The second header copied, its original not yet deleted. */
  function CopiedSecond(): Dev {
    Device([CLEAN_BLOCK, Block(Collecting, FIRST, 1), Block(Full, FIRST + 1, 2), Block(Allocating, FIRST + 2, 1)],
           {Addr(1, 1), Addr(2, 0), Addr(2, 1), Addr(3, 0)}, 4, 1, Some(3), 1, FIRST + 2, 3,
           map[Addr(1, 0) := Head(1, FIRST), Addr(1, 1) := Head(2, FIRST), Addr(2, 0) := Data(1, 1, 4, FIRST + 1, WORD),
               Addr(2, 1) := Head(1, FIRST + 1), Addr(3, 0) := Head(2, FIRST + 2)],
           map[1 := File(Addr(2, 1), 0, 4, {}, map[1 := Addr(2, 0)]), 2 := File(Addr(3, 0), 0, 0, {}, map[])]).v
  }

  lemma CopySecond()
    ensures AllocChunk(After(5).v.t, true) == (CopiedSecond().t, Some(Addr(3, 0)))
    ensures LinkHeader(After(5).v, CopiedSecond().t, Addr(3, 0), Head(2, FIRST + 2)) == CopiedSecond()
  {
    var t, u := After(5).v.t, AllocChunk(After(5).v.t, true).0;
    assert Probe(t.blocks, t.finder, 4) == (3, true);
    assert u.blocks == CopiedSecond().t.blocks;
    assert u.bits == CopiedSecond().t.bits;
  }

  lemma EraseFirst()
    ensures Delete(CopiedSecond(), Addr(1, 1)) == After(6).v
  {
  }

  lemma Step5()
    ensures Allowed(After(5), RUN[5]) && Step(After(5), RUN[5]) == After(6)
  {
    CopySecond();
    EraseFirst();
    hide AllocChunk, Delete, LinkHeader;
  }

  lemma Step6()
    ensures Allowed(After(6), RUN[6]) && Step(After(6), RUN[6]) == After(7)
  {
  }

  lemma Step7()
    ensures Allowed(After(7), RUN[7]) && Step(After(7), RUN[7]) == After(8)
  {
    NoneLate(2);
  }

  lemma Step8()
    ensures Allowed(After(8), RUN[8]) && Step(After(8), RUN[8]) == After(9)
  {
  }

  lemma {:induction false} RunFrom(k: nat)
    requires k <= 9
    ensures FlashRuns.Run(After(k), RUN[k..], After(9))
    decreases 9 - k
  {
    if k < 9 {
      StepAt(k);
      hide Allowed, Step, After;
      assert RUN[k..][1..] == RUN[k + 1..] && RUN[k..][0] == RUN[k];
      RunFrom(k + 1);
    }
  }

  lemma StepAt(k: nat)
    requires k < 9
    ensures Allowed(After(k), RUN[k]) && Step(After(k), RUN[k]) == After(k + 1)
  {
    hide Allowed, Step, After;
    if k == 0 { Step0(); } else if k == 1 { Step1(); } else if k == 2 { Step2(); }
    if k == 3 { Step3(); } else if k == 4 { Step4(); } else if k == 5 { Step5(); }
    if k == 6 { Step6(); } else if k == 7 { Step7(); } else if k == 8 { Step8(); }
  }

  lemma WhatIsLeft()
    ensures var v := After(9).v;
      && v.files[1] == File(Addr(2, 1), 8, 8, {}, map[1 := Addr(2, 0), 2 := Addr(3, 1)])
      && Reads(v, 1, 8) && Kept(v, 1).Keys == {2}
  {
    var v := After(9).v;
    assert CutOff(v, 1, Addr(2, 0)) && !CutOff(v, 1, Addr(3, 1));
    assert TopAt(v, 1, 2, 8);
    assert Kept(v, 1) == map[2 := Addr(3, 1)];
  }

  /** The call has returned, the file holds both chunks and its size is right, and the flash holds them too;
      but a mount comes back without the first. */
  lemma FirstChunkLost(log: seq<Addr>)
    requires ScanOrder(After(9).v.flash, log)
    ensures FlashRuns.Run(Blank(2, 4, 4), RUN, After(9)) && AtRest(After(9).v, 1)
    ensures After(9).v.files[1].size == 8 && After(9).v.files[1].chunks.Keys == {1, 2}
    ensures var s := ScanLog(After(9).v.flash, log, 4);
      1 in s && s[1].size == 8 && s[1].chunks.Keys == {2} && !Recovered(After(9).v, s, 1)
  {
    hide FlashLog.Inv, After, ScanLog, FlashRuns.Run, Kept, Reads;
    Start();
    assert RUN[0..] == RUN;
    RunFrom(0);
    BlankInv(2, 4, 4);
    RunInvariant(Blank(2, 4, 4), RUN, After(9));
    WhatIsLeft();
    Nine();
    MountFinds(After(9).v, Nothing, log, 1, 8);
  }

  lemma Nine()
    ensures After(9).v.chunkBytes == 4 && After(9).pend == Nothing && 1 in After(9).v.files
  {
  }
}
