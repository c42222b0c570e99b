/** Whole runs on a file's tree: storing, pruning, and a checkpoint in the end. */
module TnodeRuns {
  import opened Words
  import opened Tnodes
  import opened TnodeTree
  import opened TnodePrune
  import opened TnodeCheckpt

  /** Storing a chunk number adds no leaf beyond the largest id. */
  lemma PutChunkRange(f: FileVar, id: nat, chunk: Word, avail: nat, width: nat)
    requires Valid(f, width) && InRange(f, width)
    ensures InRange(PutChunk(f, id, chunk, avail, width).file, width)
  {
    hide SetSlot;
    AddFindRange(f, id, NoLeaf, avail, width);
    var r := AddFind(f, id, NoLeaf, avail, width);
    if r.ok && !Find(r.file, id, width).Nil? {
      var words := SetSlot(Find(r.file, id, width).words, width, id % 16, chunk);
      SetLeafRange(r.file, id / 16, words, width);
    }
  }

  lemma SetLeafRange(f: FileVar, q: nat, words: Leaf, width: nat)
    requires Valid(f, width) && InRange(f, width) && GoodLeaf(words, width)
    ensures InRange(f.(top := SetLeaf(f.top, f.topLevel, q, words, width)), width)
  {
    hide SetLeaf;
    forall p: nat
      ensures LeafAt(SetLeaf(f.top, f.topLevel, q, words, width), f.topLevel, p, width).Nil?
         <==> LeafAt(f.top, f.topLevel, p, width).Nil?
    {
      SetLeafEffect(f.top, f.topLevel, q, words, width, p);
    }
  }

  lemma NewFileRange(width: nat)
    requires GoodWidth(width)
    ensures Valid(NewFile(width), width) && InRange(NewFile(width), width)
  {
  }

  // ----- runs of stores and prunes -----

  /** `avail` is the number of tnodes the allocator can still supply. */
  datatype Op = Put(id: nat, chunk: Word, avail: nat) | MakeRoom(id: nat, avail: nat) | PruneOp

  function Step(f: FileVar, op: Op, width: nat): (r: FileVar)
    requires Valid(f, width) && InRange(f, width)
    ensures Valid(r, width)
  {
    match op
    case Put(id, chunk, avail) => PutChunk(f, id, chunk, avail, width).file
    case MakeRoom(id, avail) => AddFind(f, id, NoLeaf, avail, width).file
    case PruneOp => PrunedFile(f, width)
  }

  function PrunedFile(f: FileVar, width: nat): (r: FileVar)
    requires Valid(f, width) && InRange(f, width)
    ensures Valid(r, width)
  {
    PruneTreeCorrect(f, width, 0);
    PruneTree(f, width).0
  }

  /** The chunk map the run is meant to build: a store that succeeds sets one id. */
  function Meant(f: FileVar, m: map<nat, Word>, op: Op, width: nat): map<nat, Word>
    requires Valid(f, width)
  {
    if op.Put? && PutChunk(f, op.id, op.chunk, op.avail, width).ok then m[op.id := Low(op.chunk, width)] else m
  }

  function Lookup(m: map<nat, Word>, id: nat): Word { if id in m then m[id] else Zero() }

  ghost predicate Holds(f: FileVar, m: map<nat, Word>, width: nat) {
    Valid(f, width) && InRange(f, width) && forall id: nat :: ChunkAt(f, id, width) == Lookup(m, id)
  }

  lemma StepHolds(f: FileVar, m: map<nat, Word>, op: Op, width: nat)
    requires Holds(f, m, width)
    ensures Holds(Step(f, op, width), Meant(f, m, op, width), width)
  {
    hide Valid, InRange, ChunkAt, PutChunk, AddFind, PruneTree;
    match op
    case Put(id, chunk, avail) =>
      PutChunkRange(f, id, chunk, avail, width);
      forall e: nat ensures ChunkAt(Step(f, op, width), e, width) == Lookup(Meant(f, m, op, width), e) {
        PutChunkEffect(f, id, chunk, avail, width, e);
      }
    case MakeRoom(id, avail) =>
      AddFindRange(f, id, NoLeaf, avail, width);
      forall e: nat ensures ChunkAt(Step(f, op, width), e, width) == Lookup(m, e) {
        AddFindKeepsMap(f, id, avail, width, e);
      }
    case PruneOp =>
      PruneTreeCorrect(f, width, 0);
      forall e: nat ensures ChunkAt(Step(f, op, width), e, width) == Lookup(m, e) {
        PruneTreeCorrect(f, width, e);
      }
  }

  ghost function Run(f: FileVar, ops: seq<Op>, width: nat): FileVar
    decreases |ops|
  {
    if ops == [] || !(Valid(f, width) && InRange(f, width)) then f else Run(Step(f, ops[0], width), ops[1..], width)
  }

  ghost function MeantBy(f: FileVar, m: map<nat, Word>, ops: seq<Op>, width: nat): map<nat, Word>
    decreases |ops|
  {
    if ops == [] || !(Valid(f, width) && InRange(f, width)) then m
    else MeantBy(Step(f, ops[0], width), Meant(f, m, ops[0], width), ops[1..], width)
  }

  lemma {:induction false} RunHolds(f: FileVar, m: map<nat, Word>, ops: seq<Op>, width: nat)
    requires Holds(f, m, width)
    ensures Holds(Run(f, ops, width), MeantBy(f, m, ops, width), width)
    decreases |ops|
  {
    hide Step, Meant, Valid, InRange;
    if ops != [] {
      StepHolds(f, m, ops[0], width);
      RunHolds(Step(f, ops[0], width), Meant(f, m, ops[0], width), ops[1..], width);
    }
  }

  /** From a new file, any run of stores, failed or not, and prunes leaves the tree that stands for
      exactly the stores that succeeded, and with no leaf out of range. */
  lemma TreeIsMap(ops: seq<Op>, width: nat)
    requires GoodWidth(width)
    ensures Holds(Run(NewFile(width), ops, width), MeantBy(NewFile(width), map[], ops, width), width)
  {
    hide InRange, Run, MeantBy;
    NewFileRange(width);
    forall id: nat ensures ChunkAt(NewFile(width), id, width) == Zero() {
      assert Find(NewFile(width), id, width) ==
          (if id > MAX_CHUNK_ID || Depth(id / 16) > 0 then Nil else Bottom(BlankLeaf(width)));
      BlankSlot(width, id % 16);
    }
    RunHolds(NewFile(width), map[], ops, width);
  }

  // ----- and a checkpoint -----

  /** Every dumped leaf lies within the chunk ids. */
  lemma DumpInRange(f: FileVar, width: nat, i: nat)
    requires Valid(f, width) && InRange(f, width) && i < |Dump(f.top, f.topLevel, 0, width)|
    ensures Dump(f.top, f.topLevel, 0, width)[i].base <= MAX_CHUNK_ID
  {
    hide Dump, Shape, LeafAt;
    var rs, l := Dump(f.top, f.topLevel, 0, width), f.topLevel;
    var q := rs[i].base / 16;
    assert rs[i] == Record(16 * q, rs[i].words) && rs[i] in rs;
    DumpRecords(f.top, l, 0, width, q, rs[i].words);
    DepthShift(q, l);
  }

  /** With tnodes for the leaves read back, the rebuilt tree answers every chunk id as the original. */
  lemma CheckpointTree(f: FileVar, avail: nat, width: nat, id: nat)
    requires Valid(f, width) && InRange(f, width)
    requires avail >= 2 * MAX_LEVEL * |Dump(f.top, f.topLevel, 0, width)|
    ensures var r := Reload(NewFile(width), Dump(f.top, f.topLevel, 0, width), avail, width);
      r.ok && ChunkAt(r.file, id, width) == ChunkAt(f, id, width)
  {
    hide InRange, Dump, Reload, ChunkAt;
    NewFileRange(width);
    forall i | 0 <= i < |Dump(f.top, f.topLevel, 0, width)|
      ensures Dump(f.top, f.topLevel, 0, width)[i].base <= MAX_CHUNK_ID
    {
      DumpInRange(f, width, i);
    }
    ReloadSucceeds(NewFile(width), Dump(f.top, f.topLevel, 0, width), avail, width);
    DumpReload(f, avail, width, id);
  }

  /** A file's map survives any run followed by a checkpoint. */
  lemma RunThenCheckpoint(ops: seq<Op>, avail: nat, width: nat, id: nat)
    requires GoodWidth(width)
    ensures var f := Run(NewFile(width), ops, width);
      Valid(f, width) &&
      (avail >= 2 * MAX_LEVEL * |Dump(f.top, f.topLevel, 0, width)| ==>
        var r := Reload(NewFile(width), Dump(f.top, f.topLevel, 0, width), avail, width);
        r.ok && ChunkAt(r.file, id, width) == Lookup(MeantBy(NewFile(width), map[], ops, width), id))
  {
    hide Run, MeantBy, Dump, Reload, ChunkAt, InRange;
    TreeIsMap(ops, width);
    var f := Run(NewFile(width), ops, width);
    if avail >= 2 * MAX_LEVEL * |Dump(f.top, f.topLevel, 0, width)| { CheckpointTree(f, avail, width, id); }
  }
}
