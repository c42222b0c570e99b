/** Pruning the look-up tree after a file has shrunk. */
module TnodePrune {
  import opened Words
  import opened Tnodes
  import opened TnodeTree

  predicate LeafEmpty(m: Leaf) { forall i :: 0 <= i < |m| ==> m[i] == Zero() }

  // ----- counting tnodes -----

  function Size(t: Tnode, l: nat): nat
    decreases l, 0, 0
  {
    if t.Nil? then 0 else if l == 0 || !t.Inner? then 1 else 1 + SizeKids(t.kids, |t.kids|, l - 1)
  }

  function SizeKids(kids: seq<Tnode>, k: nat, l: nat): nat
    requires k <= |kids|
    decreases l, 1, k
  {
    if k == 0 then 0 else SizeKids(kids, k - 1, l) + Size(kids[k - 1], l)
  }

  // ----- yaffs_prune_worker -----

  /** The pruned subtree and the number of tnodes freed. */
  function Prune(t: Tnode, l: nat, del0: bool, width: nat): (r: (Tnode, nat))
    requires Shape(t, l, width)
    ensures Shape(r.0, l, width)
    decreases l, 0, 0
  {
    if t.Nil? then (Nil, 0)
    else if l == 0 then (if LeafEmpty(t.words) && del0 then (Nil, 1) else (t, 0))
    else
      var (ks, n) := PruneKids(t.kids, 8, l - 1, del0, width);
      if (forall i :: 0 <= i < 8 ==> ks[i].Nil?) && del0 then (Nil, n + 1) else (Inner(ks), n)
  }

  function PruneKids(kids: seq<Tnode>, k: nat, l: nat, del0: bool, width: nat): (r: (seq<Tnode>, nat))
    requires k <= |kids| && forall i :: 0 <= i < |kids| ==> Shape(kids[i], l, width)
    ensures |r.0| == k && forall i :: 0 <= i < k ==> Shape(r.0[i], l, width)
    decreases l, 1, k
  {
    if k == 0 then ([], 0)
    else
      var (ks, n) := PruneKids(kids, k - 1, l, del0, width);
      var (t, m) := Prune(kids[k - 1], l, k - 1 != 0 || del0, width);
      (ks + [t], n + m)
  }

  lemma {:induction false} PruneKidsAt(kids: seq<Tnode>, k: nat, l: nat, del0: bool, width: nat, i: nat)
    requires i < k <= |kids| && forall j :: 0 <= j < |kids| ==> Shape(kids[j], l, width)
    ensures PruneKids(kids, k, l, del0, width).0[i] == Prune(kids[i], l, i != 0 || del0, width).0
    decreases k
  {
    if i < k - 1 { PruneKidsAt(kids, k - 1, l, del0, width, i); }
  }

  lemma EmptyLeafSlot(m: Leaf, width: nat, pos: nat)
    requires GoodLeaf(m, width) && pos < SLOTS && LeafEmpty(m)
    ensures Slot(m, width, pos) == Zero()
  {
    var s := Slot(m, width, pos);
    assert forall j :: 0 <= j < 32 ==> s[j] == (j < width && Bit(m, SlotBase(width, pos) + j));
    assert forall j :: 0 <= j < 32 ==> s[j] == Zero()[j];
  }

  /** Pruning moves no chunk number. */
  lemma {:induction false} PruneKeeps(t: Tnode, l: nat, del0: bool, width: nat, q: nat, pos: nat)
    requires Shape(t, l, width) && pos < SLOTS
    ensures Content(LeafAt(Prune(t, l, del0, width).0, l, q, width), pos, width)
         == Content(LeafAt(t, l, q, width), pos, width)
    ensures LeafAt(t, l, q, width).Nil? ==> LeafAt(Prune(t, l, del0, width).0, l, q, width).Nil?
    decreases l
  {
    if t.Nil? {
    } else if l == 0 {
      if LeafEmpty(t.words) { EmptyLeafSlot(t.words, width, pos); }
    } else {
      var d := Digit(q, l);
      PruneKidsAt(t.kids, 8, l - 1, del0, width, d);
      PruneKeeps(t.kids[d], l - 1, d != 0 || del0, width, q, pos);
    }
  }

  /** The leftmost chain survives when the caller asks for it. */
  lemma {:induction false} PruneSpine(t: Tnode, l: nat, width: nat)
    requires Shape(t, l, width) && Spine(t, l)
    ensures Spine(Prune(t, l, false, width).0, l)
    decreases l
  {
    if l > 0 {
      PruneKidsAt(t.kids, 8, l - 1, false, width, 0);
      PruneSpine(t.kids[0], l - 1, width);
    }
  }

  /** Exactly the tnodes unlinked are freed. */
  lemma {:induction false} PruneFrees(t: Tnode, l: nat, del0: bool, width: nat)
    requires Shape(t, l, width)
    ensures Size(t, l) == Size(Prune(t, l, del0, width).0, l) + Prune(t, l, del0, width).1
    decreases l, 0, 0
  {
    if !t.Nil? && l > 0 {
      PruneKidsFrees(t.kids, 8, l - 1, del0, width);
      var (ks, n) := PruneKids(t.kids, 8, l - 1, del0, width);
      if forall i :: 0 <= i < 8 ==> ks[i].Nil? { NilKidsSize(ks, 8, l - 1); }
    }
  }

  lemma {:induction false} PruneKidsFrees(kids: seq<Tnode>, k: nat, l: nat, del0: bool, width: nat)
    requires k <= |kids| && forall i :: 0 <= i < |kids| ==> Shape(kids[i], l, width)
    ensures var r := PruneKids(kids, k, l, del0, width); SizeKids(kids, k, l) == SizeKids(r.0, k, l) + r.1
    decreases l, 1, k
  {
    if k > 0 {
      PruneKidsFrees(kids, k - 1, l, del0, width);
      PruneFrees(kids[k - 1], l, k - 1 != 0 || del0, width);
      var (ks, n) := PruneKids(kids, k - 1, l, del0, width);
      SizeKidsPrefix(ks, [Prune(kids[k - 1], l, k - 1 != 0 || del0, width).0], k - 1, l);
    }
  }

  lemma {:induction false} SizeKidsPrefix(a: seq<Tnode>, b: seq<Tnode>, k: nat, l: nat)
    requires k <= |a|
    ensures SizeKids(a + b, k, l) == SizeKids(a, k, l)
    decreases k
  {
    if k > 0 { SizeKidsPrefix(a, b, k - 1, l); }
  }

  lemma {:induction false} NilKidsSize(kids: seq<Tnode>, k: nat, l: nat)
    requires k <= |kids| && forall i :: 0 <= i < |kids| ==> kids[i].Nil?
    ensures SizeKids(kids, k, l) == 0
    decreases k
  {
    if k > 0 { NilKidsSize(kids, k - 1, l); }
  }

  // ----- what is left holds data -----

  ghost predicate HasData(t: Tnode, l: nat)
    decreases l
  {
    if l == 0 then t.Bottom? && !LeafEmpty(t.words)
    else t.Inner? && exists i :: 0 <= i < |t.kids| && HasData(t.kids[i], l - 1)
  }

  lemma {:induction false} PruneDense(t: Tnode, l: nat, width: nat)
    requires Shape(t, l, width) && !Prune(t, l, true, width).0.Nil?
    ensures HasData(Prune(t, l, true, width).0, l)
    decreases l
  {
    if l > 0 {
      var (ks, n) := PruneKids(t.kids, 8, l - 1, true, width);
      var i :| 0 <= i < 8 && !ks[i].Nil?;
      PruneKidsAt(t.kids, 8, l - 1, true, width, i);
      PruneDense(t.kids[i], l - 1, width);
    }
  }

  lemma {:induction false} SlotHolding(width: nat, k: nat, n: nat) returns (pos: nat)
    requires k < SlotBase(width, n)
    ensures pos < n && SlotBase(width, pos) <= k < SlotBase(width, pos) + width
  {
    assert n * width == (n - 1) * width + width;
    if SlotBase(width, n - 1) <= k { pos := n - 1; } else { pos := SlotHolding(width, k, n - 1); }
  }

  lemma NonEmptyLeaf(m: Leaf, width: nat) returns (pos: nat)
    requires GoodLeaf(m, width) && !LeafEmpty(m)
    ensures pos < SLOTS && Slot(m, width, pos) != Zero()
  {
    var i :| 0 <= i < |m| && m[i] != Zero();
    var j :| 0 <= j < 32 && m[i][j];
    var k := 32 * i + j;
    assert k < SlotBase(width, SLOTS);
    pos := SlotHolding(width, k, SLOTS);
    assert k / 32 == i && k % 32 == j;
    assert Bit(m, SlotBase(width, pos) + (k - SlotBase(width, pos)));
    assert Slot(m, width, pos)[k - SlotBase(width, pos)] && !Zero()[k - SlotBase(width, pos)];
  }

  /** A subtree with data answers for some id whose upper digits are `hi`. */
  lemma {:induction false} DataId(t: Tnode, l: nat, hi: nat, width: nat) returns (q: nat, pos: nat)
    requires Shape(t, l, width) && HasData(t, l)
    ensures pos < SLOTS && Shift(q, l) == hi
    ensures Content(LeafAt(t, l, q, width), pos, width) != Zero()
    decreases l
  {
    if l == 0 {
      q := hi;
      pos := NonEmptyLeaf(t.words, width);
    } else {
      var i :| 0 <= i < |t.kids| && HasData(t.kids[i], l - 1);
      q, pos := DataId(t.kids[i], l - 1, 8 * hi + i, width);
      ShiftNext(q, l - 1);
    }
  }

  // ----- yaffs_prune_tree -----

  predicate OnlyFirst(t: Tnode) { t.Inner? && |t.kids| == 8 && forall i :: 1 <= i < 8 ==> t.kids[i].Nil? }

  /** Trimming the height, and the number of tnodes freed by it. */
  function Trim(f: FileVar): (FileVar, nat)
    decreases f.topLevel
  {
    if f.topLevel > 0 && OnlyFirst(f.top) then
      var (g, n) := Trim(FileVar(f.top.kids[0], f.topLevel - 1));
      (g, n + 1)
    else (f, 0)
  }

  function PruneTree(f: FileVar, width: nat): (FileVar, nat)
    requires Valid(f, width)
  {
    if f.topLevel < 1 then (f, 0)
    else
      var (t, n) := Prune(f.top, f.topLevel, false, width);
      var (g, m) := Trim(FileVar(t, f.topLevel));
      (g, n + m)
  }

  lemma {:induction false} TrimKeeps(f: FileVar, width: nat, id: nat)
    requires Valid(f, width)
    ensures Valid(Trim(f).0, width)
    ensures ChunkAt(Trim(f).0, id, width) == ChunkAt(f, id, width)
    decreases f.topLevel
  {
    hide Valid, ChunkAt;
    if f.topLevel > 0 && OnlyFirst(f.top) {
      TrimStep(f, width, id);
      TrimKeeps(FileVar(f.top.kids[0], f.topLevel - 1), width, id);
    }
  }

  /** Dropping a top whose only child is the first one. */
  lemma TrimStep(f: FileVar, width: nat, id: nat)
    requires Valid(f, width) && f.topLevel > 0 && OnlyFirst(f.top)
    ensures var g := FileVar(f.top.kids[0], f.topLevel - 1);
      Valid(g, width) && ChunkAt(g, id, width) == ChunkAt(f, id, width)
  {
    var g := FileVar(f.top.kids[0], f.topLevel - 1);
    assert Valid(g, width);
    var q, l := id / 16, f.topLevel;
    if Depth(q) <= l {
      TopDigit(q, l);
      assert LeafAt(f.top, l, q, width) == LeafAt(f.top.kids[Digit(q, l)], l - 1, q, width);
    }
  }

  lemma {:induction false} TrimFrees(f: FileVar)
    requires Spine(f.top, f.topLevel)
    ensures Size(f.top, f.topLevel) == Size(Trim(f).0.top, Trim(f).0.topLevel) + Trim(f).1
    decreases f.topLevel
  {
    if f.topLevel > 0 && OnlyFirst(f.top) {
      TrimFrees(FileVar(f.top.kids[0], f.topLevel - 1));
      OnlyFirstSize(f.top.kids, 8, f.topLevel - 1);
    }
  }

  lemma {:induction false} OnlyFirstSize(kids: seq<Tnode>, k: nat, l: nat)
    requires 1 <= k <= |kids| && forall i :: 1 <= i < |kids| ==> kids[i].Nil?
    ensures SizeKids(kids, k, l) == Size(kids[0], l)
    decreases k
  {
    if k > 1 { OnlyFirstSize(kids, k - 1, l); } else { assert SizeKids(kids, 0, l) == 0; }
  }

  /** Off the leftmost chain, whatever is present holds data. */
  ghost predicate SpineDense(t: Tnode, l: nat)
    decreases l
  {
    l > 0 ==>
      && t.Inner? && |t.kids| == 8 && SpineDense(t.kids[0], l - 1)
      && forall i :: 1 <= i < 8 ==> t.kids[i].Nil? || HasData(t.kids[i], l - 1)
  }

  lemma {:induction false} PruneSpineDense(t: Tnode, l: nat, width: nat)
    requires Shape(t, l, width) && Spine(t, l)
    ensures SpineDense(Prune(t, l, false, width).0, l)
    decreases l
  {
    if l > 0 {
      var ks := PruneKids(t.kids, 8, l - 1, false, width).0;
      PruneKidsAt(t.kids, 8, l - 1, false, width, 0);
      PruneSpineDense(t.kids[0], l - 1, width);
      forall i | 1 <= i < 8 ensures ks[i].Nil? || HasData(ks[i], l - 1) {
        PruneKidsAt(t.kids, 8, l - 1, false, width, i);
        if !ks[i].Nil? { PruneDense(t.kids[i], l - 1, width); }
      }
    }
  }

  lemma {:induction false} TrimDense(f: FileVar)
    requires SpineDense(f.top, f.topLevel)
    ensures SpineDense(Trim(f).0.top, Trim(f).0.topLevel)
    ensures Trim(f).0.topLevel == 0 || !OnlyFirst(Trim(f).0.top)
    decreases f.topLevel
  {
    if f.topLevel > 0 && OnlyFirst(f.top) { TrimDense(FileVar(f.top.kids[0], f.topLevel - 1)); }
  }

  /** Every leaf in the tree stands for ids a file can have. */
  ghost predicate InRange(f: FileVar, width: nat)
    requires Valid(f, width)
  {
    forall q: nat :: Depth(q) <= f.topLevel && !LeafAt(f.top, f.topLevel, q, width).Nil? ==> q <= MAX_CHUNK_ID / 16
  }

  /** The tree is as tall as its largest mapped id needs, and no taller. */
  ghost predicate ExactDepth(f: FileVar, width: nat)
    requires Valid(f, width)
  {
    f.topLevel == 0 ||
    exists id :: 0 <= id <= MAX_CHUNK_ID && Depth(id / 16) == f.topLevel && ChunkAt(f, id, width) != Zero()
  }

  lemma DenseIsExact(f: FileVar, width: nat)
    requires Valid(f, width) && InRange(f, width) && f.topLevel > 0
    requires SpineDense(f.top, f.topLevel) && !OnlyFirst(f.top)
    ensures ExactDepth(f, width)
  {
    var l := f.topLevel;
    var i :| 1 <= i < 8 && !f.top.kids[i].Nil?;
    var q, pos := DataId(f.top.kids[i], l - 1, i, width);
    ShiftNext(q, l - 1);
    DepthShift(q, l);
    TopDigit(q, l);
    assert Digit(q, l) == i && LeafAt(f.top, l, q, width) == LeafAt(f.top.kids[i], l - 1, q, width);
    var id := 16 * q + pos;
    assert id / 16 == q && id % 16 == pos;
    assert ChunkAt(f, id, width) != Zero();
  }

  lemma PruneRange(f: FileVar, width: nat)
    requires Valid(f, width) && InRange(f, width)
    ensures var g := FileVar(Prune(f.top, f.topLevel, false, width).0, f.topLevel);
      Valid(g, width) && InRange(g, width)
  {
    PruneSpine(f.top, f.topLevel, width);
    var g := FileVar(Prune(f.top, f.topLevel, false, width).0, f.topLevel);
    forall q: nat | Depth(q) <= g.topLevel && !LeafAt(g.top, g.topLevel, q, width).Nil? ensures q <= MAX_CHUNK_ID / 16 {
      PruneKeeps(f.top, f.topLevel, false, width, q, 0);
    }
  }

  lemma {:induction false} TrimRange(f: FileVar, width: nat)
    requires Valid(f, width) && InRange(f, width)
    ensures Valid(Trim(f).0, width) && InRange(Trim(f).0, width)
    decreases f.topLevel
  {
    if f.topLevel > 0 && OnlyFirst(f.top) {
      var g, l := FileVar(f.top.kids[0], f.topLevel - 1), f.topLevel;
      assert Valid(g, width);
      forall q: nat | Depth(q) <= g.topLevel && !LeafAt(g.top, g.topLevel, q, width).Nil?
        ensures q <= MAX_CHUNK_ID / 16
      {
        TopDigit(q, l);
        assert LeafAt(f.top, l, q, width) == LeafAt(g.top, l - 1, q, width);
      }
      TrimRange(g, width);
    }
  }

  /** The pruning theorem: no chunk number changes, the freed count is exact, and the tree is
      left at exactly the height its largest mapped id needs. */
  lemma PruneTreeCorrect(f: FileVar, width: nat, id: nat)
    requires Valid(f, width) && InRange(f, width)
    ensures var (g, freed) := PruneTree(f, width);
      && Valid(g, width) && InRange(g, width)
      && ChunkAt(g, id, width) == ChunkAt(f, id, width)
      && Size(f.top, f.topLevel) == Size(g.top, g.topLevel) + freed
      && ExactDepth(g, width)
  {
    if f.topLevel >= 1 {
      var p := FileVar(Prune(f.top, f.topLevel, false, width).0, f.topLevel);
      PruneRange(f, width);
      PruneKeeps(f.top, f.topLevel, false, width, id / 16, id % 16);
      PruneFrees(f.top, f.topLevel, false, width);
      PruneSpineDense(f.top, f.topLevel, width);
      TrimRange(p, width);
      TrimKeeps(p, width, id);
      TrimFrees(p);
      TrimDense(p);
      if Trim(p).0.topLevel > 0 { DenseIsExact(Trim(p).0, width); }
    }
  }

  /** Making room keeps every leaf within range. */
  lemma AddFindRange(f: FileVar, id: nat, passed: Passed, avail: nat, width: nat)
    requires Valid(f, width) && InRange(f, width) && GoodPassed(passed, width)
    ensures InRange(AddFind(f, id, passed, avail, width).file, width)
  {
    var r := AddFind(f, id, passed, avail, width);
    forall q: nat | Depth(q) <= r.file.topLevel && !LeafAt(r.file.top, r.file.topLevel, q, width).Nil?
      ensures q <= MAX_CHUNK_ID / 16
    {
      if q > MAX_CHUNK_ID / 16 { AddFindOutside(f, id, passed, avail, width, q); }
    }
  }

  /** Beyond the largest id nothing is ever added. */
  lemma AddFindOutside(f: FileVar, id: nat, passed: Passed, avail: nat, width: nat, q: nat)
    requires Valid(f, width) && InRange(f, width) && GoodPassed(passed, width) && q > MAX_CHUNK_ID / 16
    requires Depth(q) <= AddFind(f, id, passed, avail, width).file.topLevel
    ensures var r := AddFind(f, id, passed, avail, width);
      LeafAt(r.file.top, r.file.topLevel, q, width).Nil?
  {
    if id <= MAX_CHUNK_ID {
      var p := id / 16;
      MaxDepth(p);
      GrowOutside(f, Depth(p), avail, width, q);
      var (g, left) := Grow(f, Depth(p), avail, width);
      if g.topLevel >= Depth(p) {
        DescendEffect(g.top, g.topLevel, p, passed, left, width, q);
        DepthShift(q, g.topLevel);
        DepthShift(p, g.topLevel);
        if SameWay(q, p, g.topLevel) { SameWayEqual(q, p, g.topLevel); }
      }
    }
  }

  lemma {:induction false} GrowOutside(f: FileVar, depth: nat, avail: nat, width: nat, q: nat)
    requires Valid(f, width) && InRange(f, width) && q > MAX_CHUNK_ID / 16
    ensures var g := Grow(f, depth, avail, width).0;
      Depth(q) <= g.topLevel ==> LeafAt(g.top, g.topLevel, q, width).Nil?
    decreases avail
  {
    if !(depth <= f.topLevel || avail == 0 || f.topLevel >= MAX_LEVEL) {
      TallerRange(f, width);
      GrowOutside(Taller(f), depth, avail - 1, width, q);
    }
  }

  lemma TallerRange(f: FileVar, width: nat)
    requires Valid(f, width) && InRange(f, width) && f.topLevel < MAX_LEVEL
    ensures Valid(Taller(f), width) && InRange(Taller(f), width)
  {
    var g, l := Taller(f), f.topLevel + 1;
    forall q: nat | Depth(q) <= l && !LeafAt(g.top, l, q, width).Nil? ensures q <= MAX_CHUNK_ID / 16 {
      TopDigit(q, l);
      var kid := g.top.kids[Digit(q, l)];
      assert kid == if Digit(q, l) == 0 then f.top else Nil;
      assert LeafAt(g.top, l, q, width) == LeafAt(kid, l - 1, q, width);
    }
  }

  /** The trimming loop of yaffs_prune_tree. */
  method TrimTree(file: FileTree, width: nat) returns (freed: nat)
    requires Valid(file.View(), width)
    modifies file
    ensures (file.View(), freed) == Trim(old(file.View()))
  {
    freed := 0;
    var done := false;
    while file.topLevel > 0 && !done
      invariant Valid(file.View(), width)
      invariant done ==> !OnlyFirst(file.top)
      invariant Trim(old(file.View())) == (Trim(file.View()).0, freed + Trim(file.View()).1)
      decreases file.topLevel, !done
    {
      var hasData := 0;
      var i := 1;
      while i < 8
        invariant 1 <= i <= 8 && hasData >= 0
        invariant hasData == 0 <==> forall j :: 1 <= j < i ==> file.top.kids[j].Nil?
      {
        if !file.top.kids[i].Nil? { hasData := hasData + 1; }
        i := i + 1;
      }
      if hasData == 0 {
        file.top := file.top.kids[0];
        file.topLevel := file.topLevel - 1;
        freed := freed + 1;
      } else {
        done := true;
      }
    }
  }
}
