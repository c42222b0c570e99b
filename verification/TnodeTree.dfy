/** The look-up tree of a file: tnodes with eight children above the packed leaves. */
module TnodeTree {
  import opened Words
  import opened Tnodes

  const MAX_CHUNK_ID := 0xfffff
  const MAX_LEVEL := 6

  datatype Tnode = Nil | Bottom(words: Leaf) | Inner(kids: seq<Tnode>)

  datatype FileVar = FileVar(top: Tnode, topLevel: nat)

  // ----- chunk ids as octal digits above the slot -----

  /** q >> 3k */
  function Shift(q: nat, k: nat): nat { if k == 0 then q else Shift(q / 8, k - 1) }

  /** The child index used on the way down from level `l`. */
  function Digit(q: nat, l: nat): (d: nat)
    requires l >= 1
    ensures d < 8
  {
    Shift(q, l - 1) % 8
  }

  /** required_depth: how many levels above the leaves `q` needs. */
  function Depth(q: nat): nat { if q == 0 then 0 else 1 + Depth(q / 8) }

  lemma {:induction false} ShiftNext(q: nat, k: nat)
    ensures Shift(q, k + 1) == Shift(q, k) / 8
  {
    if k > 0 { ShiftNext(q / 8, k - 1); }
  }

  lemma {:induction false} DepthShift(q: nat, l: nat)
    ensures Depth(q) <= l <==> Shift(q, l) == 0
  {
    if l > 0 && q > 0 { DepthShift(q / 8, l - 1); }
    if q == 0 { ShiftZero(l); }
  }

  lemma {:induction false} ShiftZero(l: nat)
    ensures Shift(0, l) == 0
  {
    if l > 0 { ShiftZero(l - 1); }
  }

  lemma TopDigit(q: nat, l: nat)
    requires l >= 1 && Depth(q) <= l
    ensures Digit(q, l) == 0 <==> Depth(q) < l
  {
    DepthShift(q, l);
    DepthShift(q, l - 1);
    ShiftNext(q, l - 1);
  }

  lemma MaxDepth(q: nat)
    requires q <= MAX_CHUNK_ID / 16
    ensures Depth(q) <= MAX_LEVEL
  {
    DepthShift(q, 6);
    var a := q / 8; var b := a / 8; var c := b / 8; var d := c / 8; var e := d / 8;
    assert Shift(q, 6) == Shift(a, 5) == Shift(b, 4) == Shift(c, 3) == Shift(d, 2) == Shift(e, 1) == Shift(e / 8, 0);
  }

  /** The two ids take the same way down from level `l`. */
  predicate SameWay(p: nat, q: nat, l: nat) {
    l == 0 || (Digit(p, l) == Digit(q, l) && SameWay(p, q, l - 1))
  }

  lemma {:induction false} SameWayEqual(p: nat, q: nat, l: nat)
    requires SameWay(p, q, l) && Shift(p, l) == Shift(q, l)
    ensures p == q
    decreases l
  {
    if l > 0 {
      ShiftNext(p, l - 1);
      ShiftNext(q, l - 1);
      SameWayEqual(p, q, l - 1);
    }
  }

  // ----- trees -----

  predicate Shape(t: Tnode, l: nat, width: nat)
    decreases l
  {
    || t.Nil?
    || (t.Bottom? && l == 0 && GoodLeaf(t.words, width))
    || (t.Inner? && l > 0 && |t.kids| == 8 && forall i :: 0 <= i < 8 ==> Shape(t.kids[i], l - 1, width))
  }

  /** The walk down of yaffs_find_tnode_0. */
  function LeafAt(t: Tnode, l: nat, q: nat, width: nat): (r: Tnode)
    requires Shape(t, l, width)
    ensures Shape(r, 0, width)
    decreases l
  {
    if t.Nil? || l == 0 then (if l == 0 then t else Nil) else LeafAt(t.kids[Digit(q, l)], l - 1, q, width)
  }

  ghost predicate Valid(f: FileVar, width: nat) {
    GoodWidth(width) && Shape(f.top, f.topLevel, width) && f.topLevel <= MAX_LEVEL && Spine(f.top, f.topLevel)
  }

  /** The leftmost chain of tnodes is never missing. */
  predicate Spine(t: Tnode, l: nat)
    decreases l
  {
    !t.Nil? && (l > 0 ==> t.Inner? && |t.kids| == 8 && Spine(t.kids[0], l - 1))
  }

  /** yaffs_find_tnode_0 */
  function Find(f: FileVar, id: nat, width: nat): (r: Tnode)
    requires Valid(f, width)
    ensures Shape(r, 0, width)
  {
    if id > MAX_CHUNK_ID || Depth(id / 16) > f.topLevel then Nil
    else LeafAt(f.top, f.topLevel, id / 16, width)
  }

  function Content(leaf: Tnode, pos: nat, width: nat): Word
    requires Shape(leaf, 0, width) && pos < SLOTS
  {
    if leaf.Nil? then Zero() else Slot(leaf.words, width, pos)
  }

  /** The map from chunk ids to chunk numbers that the tree stands for. */
  function ChunkAt(f: FileVar, id: nat, width: nat): Word
    requires Valid(f, width)
  {
    Content(Find(f, id, width), id % 16, width)
  }

  // ----- making the tree taller -----

  function Taller(f: FileVar): FileVar {
    FileVar(Inner([f.top, Nil, Nil, Nil, Nil, Nil, Nil, Nil]), f.topLevel + 1)
  }

  function Grow(f: FileVar, depth: nat, avail: nat, width: nat): (r: (FileVar, nat))
    requires Valid(f, width)
    ensures Valid(r.0, width)
    decreases avail
  {
    if depth <= f.topLevel || avail == 0 || f.topLevel >= MAX_LEVEL then (f, avail)
    else Grow(Taller(f), depth, avail - 1, width)
  }

  lemma TallerSame(f: FileVar, id: nat, width: nat)
    requires Valid(f, width) && f.topLevel < MAX_LEVEL
    ensures Valid(Taller(f), width)
    ensures Find(Taller(f), id, width) == Find(f, id, width)
  {
    var q, l := id / 16, f.topLevel + 1;
    if Depth(q) <= l {
      TopDigit(q, l);
      var kid := Taller(f).top.kids[Digit(q, l)];
      assert kid == if Digit(q, l) == 0 then f.top else Nil;
      assert LeafAt(Taller(f).top, l, q, width) == LeafAt(kid, l - 1, q, width);
    }
  }

  lemma {:induction false} GrowSame(f: FileVar, depth: nat, avail: nat, id: nat, width: nat)
    requires Valid(f, width) && depth <= MAX_LEVEL
    ensures var (g, left) := Grow(f, depth, avail, width);
      && Find(g, id, width) == Find(f, id, width)
      && avail - left == g.topLevel - f.topLevel
      && (g.topLevel >= depth || left == 0)
    decreases avail
  {
    if depth > f.topLevel && avail > 0 {
      TallerSame(f, id, width);
      GrowSame(Taller(f), depth, avail - 1, id, width);
    }
  }

  // ----- adding what is missing on the way down -----

  datatype Passed = NoLeaf | PassedLeaf(words: Leaf)

  datatype Added = Added(tree: Tnode, avail: nat, ok: bool)

  /** The walk of yaffs_add_find_tnode_0 from level `l`; `avail` tnodes can be allocated. */
  function Descend(t: Tnode, l: nat, q: nat, passed: Passed, avail: nat, width: nat): (r: Added)
    requires Shape(t, l, width) && GoodWidth(width) && (!t.Nil? || (l == 0 && passed.PassedLeaf?))
    requires GoodPassed(passed, width)
    ensures Shape(r.tree, l, width) && !r.tree.Nil? && r.avail <= avail
    ensures Spine(t, l) ==> Spine(r.tree, l)
    decreases l
  {
    if l == 0 then Added(if passed.PassedLeaf? then Bottom(passed.words) else t, avail, true)
    else
      var d := Digit(q, l);
      var missing := t.kids[d].Nil? && !(l == 1 && passed.PassedLeaf?);
      if missing && avail == 0 then Added(t, 0, false)
      else
        var kid := if missing then NewTnode(l - 1, width) else t.kids[d];
        var r := Descend(kid, l - 1, q, passed, if missing then avail - 1 else avail, width);
        assert Spine(t, l) ==> Spine(t.kids[0], l - 1) && (d == 0 ==> kid == t.kids[0]);
        assert d != 0 ==> t.kids[d := r.tree][0] == t.kids[0];
        Added(Inner(t.kids[d := r.tree]), r.avail, r.ok)
  }

  /** A zeroed tnode for level `l`. */
  function NewTnode(l: nat, width: nat): (t: Tnode)
    requires GoodWidth(width)
    ensures Shape(t, l, width) && !t.Nil?
  {
    if l == 0 then Bottom(BlankLeaf(width)) else Inner([Nil, Nil, Nil, Nil, Nil, Nil, Nil, Nil])
  }

  predicate GoodPassed(passed: Passed, width: nat) { passed.PassedLeaf? ==> GoodLeaf(passed.words, width) }

  /** What the walk does to the leaf at `p`: nothing unless it is the leaf asked for; then a
      missing leaf becomes a blank one, and a passed-in leaf takes the place of any. */
  function LeafAfter(leaf: Tnode, same: bool, passed: Passed, ok: bool, width: nat): Tnode
    requires GoodWidth(width)
  {
    if !same || !ok then leaf
    else if passed.PassedLeaf? then Bottom(passed.words)
    else if leaf.Nil? then Bottom(BlankLeaf(width)) else leaf
  }

  lemma {:induction false} DescendEffect(t: Tnode, l: nat, q: nat, passed: Passed, avail: nat, width: nat, p: nat)
    requires Shape(t, l, width) && GoodWidth(width) && (!t.Nil? || (l == 0 && passed.PassedLeaf?))
    requires GoodPassed(passed, width)
    ensures var r := Descend(t, l, q, passed, avail, width);
      LeafAt(r.tree, l, p, width) == LeafAfter(LeafAt(t, l, p, width), SameWay(p, q, l), passed, r.ok, width)
    decreases l
  {
    if l > 0 {
      var d := Digit(q, l);
      var missing := t.kids[d].Nil? && !(l == 1 && passed.PassedLeaf?);
      if !(missing && avail == 0) {
        var kid := if missing then NewTnode(l - 1, width) else t.kids[d];
        DescendEffect(kid, l - 1, q, passed, if missing then avail - 1 else avail, width, p);
        if missing { NewTnodeBlank(l - 1, width, p); }
      }
    }
  }

  lemma {:induction false} NewTnodeBlank(l: nat, width: nat, p: nat)
    requires GoodWidth(width)
    ensures LeafAt(NewTnode(l, width), l, p, width) == if l == 0 then Bottom(BlankLeaf(width)) else Nil
  {
  }

  datatype AddResult = AddResult(file: FileVar, avail: nat, ok: bool)

  /** yaffs_add_find_tnode_0 */
  function AddFind(f: FileVar, id: nat, passed: Passed, avail: nat, width: nat): (r: AddResult)
    requires Valid(f, width) && GoodPassed(passed, width)
    ensures Valid(r.file, width)
  {
    if id > MAX_CHUNK_ID then AddResult(f, avail, false)
    else
      var (g, left) := Grow(f, Depth(id / 16), avail, width);
      if g.topLevel < Depth(id / 16) then AddResult(g, left, false)
      else
        var r := Descend(g.top, g.topLevel, id / 16, passed, left, width);
        AddResult(FileVar(r.tree, g.topLevel), r.avail, r.ok)
  }

  /** Growing the tree and adding tnodes, all the way or part of it, moves no leaf: only the
      leaf asked for can change, and only if the call succeeds. */
  lemma AddFindEffect(f: FileVar, id: nat, passed: Passed, avail: nat, width: nat, e: nat)
    requires Valid(f, width) && GoodPassed(passed, width) && e <= MAX_CHUNK_ID
    ensures var r := AddFind(f, id, passed, avail, width);
      Find(r.file, e, width) == LeafAfter(Find(f, e, width), id / 16 == e / 16, passed, r.ok, width)
  {
    if id <= MAX_CHUNK_ID {
      MaxDepth(id / 16);
      GrowSame(f, Depth(id / 16), avail, e, width);
      var (g, left) := Grow(f, Depth(id / 16), avail, width);
      if g.topLevel >= Depth(id / 16) {
        var p, q, l := e / 16, id / 16, g.topLevel;
        DescendEffect(g.top, l, q, passed, left, width, p);
        DepthShift(q, l);
        DepthShift(p, l);
        if SameWay(p, q, l) && Depth(p) <= l { SameWayEqual(p, q, l); }
        if p == q { SameWayRefl(p, l); }
      }
    }
  }

  lemma {:induction false} SameWayRefl(p: nat, l: nat)
    ensures SameWay(p, p, l)
    decreases l
  {
    if l > 0 { SameWayRefl(p, l - 1); }
  }

  lemma BlankSlot(width: nat, pos: nat)
    requires GoodWidth(width) && pos < SLOTS
    ensures Slot(BlankLeaf(width), width, pos) == Zero()
  {
    var s := Slot(BlankLeaf(width), width, pos);
    assert forall j :: 0 <= j < 32 ==> s[j] == (j < width && Bit(BlankLeaf(width), SlotBase(width, pos) + j));
    assert forall j :: 0 <= j < 32 ==> s[j] == Zero()[j];
  }

  /** Making room for an id, successfully or not, changes no chunk number. */
  lemma AddFindKeepsMap(f: FileVar, id: nat, avail: nat, width: nat, e: nat)
    requires Valid(f, width)
    ensures ChunkAt(AddFind(f, id, NoLeaf, avail, width).file, e, width) == ChunkAt(f, e, width)
  {
    if e <= MAX_CHUNK_ID {
      AddFindEffect(f, id, NoLeaf, avail, width, e);
      BlankSlot(width, e % 16);
    }
  }

  // ----- storing a chunk number -----

  /** The tree with the leaf at `q` replaced. */
  function SetLeaf(t: Tnode, l: nat, q: nat, words: Leaf, width: nat): (r: Tnode)
    requires Shape(t, l, width) && GoodLeaf(words, width)
    ensures Shape(r, l, width) && (Spine(t, l) ==> Spine(r, l))
    decreases l
  {
    if t.Nil? then Nil
    else if l == 0 then Bottom(words)
    else Inner(t.kids[Digit(q, l) := SetLeaf(t.kids[Digit(q, l)], l - 1, q, words, width)])
  }

  lemma {:induction false} SetLeafEffect(t: Tnode, l: nat, q: nat, words: Leaf, width: nat, p: nat)
    requires Shape(t, l, width) && GoodLeaf(words, width)
    ensures LeafAt(SetLeaf(t, l, q, words, width), l, p, width)
         == if SameWay(p, q, l) && !LeafAt(t, l, p, width).Nil? then Bottom(words) else LeafAt(t, l, p, width)
    decreases l
  {
    if !t.Nil? && l > 0 { SetLeafEffect(t.kids[Digit(q, l)], l - 1, q, words, width, p); }
  }

  /** yaffs_put_chunk_in_file outside a scan: make room, then load the slot. */
  function PutChunk(f: FileVar, id: nat, chunk: Word, avail: nat, width: nat): (r: AddResult)
    requires Valid(f, width)
    ensures Valid(r.file, width)
  {
    var r := AddFind(f, id, NoLeaf, avail, width);
    if !r.ok then r
    else
      var leaf := Find(r.file, id, width);
      if leaf.Nil? then r.(ok := false)
      else
        var words := SetSlot(leaf.words, width, id % 16, chunk);
        r.(file := r.file.(top := SetLeaf(r.file.top, r.file.topLevel, id / 16, words, width)))
  }

  /** Storing at one chunk id changes that id alone; a failed store changes none. */
  lemma PutChunkEffect(f: FileVar, id: nat, chunk: Word, avail: nat, width: nat, e: nat)
    requires Valid(f, width)
    ensures var r := PutChunk(f, id, chunk, avail, width);
      ChunkAt(r.file, e, width) == if r.ok && e == id then Low(chunk, width) else ChunkAt(f, e, width)
  {
    AddFindKeepsMap(f, id, avail, width, e);
    var r := AddFind(f, id, NoLeaf, avail, width);
    if r.ok && !Find(r.file, id, width).Nil? && e <= MAX_CHUNK_ID {
      var leaf := Find(r.file, id, width);
      var words := SetSlot(leaf.words, width, id % 16, chunk);
      var p, q, l := e / 16, id / 16, r.file.topLevel;
      SetLeafEffect(r.file.top, l, q, words, width, p);
      SlotAfterSet(leaf.words, width, id % 16, e % 16, chunk);
      DepthShift(q, l);
      DepthShift(p, l);
      if SameWay(p, q, l) && Depth(p) <= l { SameWayEqual(p, q, l); }
      if p == q { SameWayRefl(p, l); }
    }
  }

  /** Making room fails only for an id out of range or for want of tnodes. */
  lemma AddFindSucceeds(f: FileVar, id: nat, passed: Passed, avail: nat, width: nat)
    requires Valid(f, width) && GoodPassed(passed, width) && id <= MAX_CHUNK_ID && avail >= 2 * MAX_LEVEL
    ensures var r := AddFind(f, id, passed, avail, width); r.ok && avail - r.avail <= 2 * MAX_LEVEL
  {
    MaxDepth(id / 16);
    GrowSame(f, Depth(id / 16), avail, id, width);
    var (g, left) := Grow(f, Depth(id / 16), avail, width);
    DescendSucceeds(g.top, g.topLevel, id / 16, passed, left, width);
  }

  lemma {:induction false} DescendSucceeds(t: Tnode, l: nat, q: nat, passed: Passed, avail: nat, width: nat)
    requires Shape(t, l, width) && GoodWidth(width) && (!t.Nil? || (l == 0 && passed.PassedLeaf?)) && avail >= l
    requires GoodPassed(passed, width)
    ensures var r := Descend(t, l, q, passed, avail, width); r.ok && avail - r.avail <= l
    decreases l
  {
    if l > 0 {
      var kid := t.kids[Digit(q, l)];
      if kid.Nil? && !(l == 1 && passed.PassedLeaf?) {
        DescendSucceeds(NewTnode(l - 1, width), l - 1, q, passed, avail - 1, width);
      } else {
        DescendSucceeds(kid, l - 1, q, passed, avail, width);
      }
    }
  }

  lemma PutChunkSucceeds(f: FileVar, id: nat, chunk: Word, avail: nat, width: nat)
    requires Valid(f, width) && id <= MAX_CHUNK_ID && avail >= 2 * MAX_LEVEL
    ensures PutChunk(f, id, chunk, avail, width).ok
  {
    AddFindSucceeds(f, id, NoLeaf, avail, width);
    AddFindEffect(f, id, NoLeaf, avail, width, id);
  }

  // ----- the loops of the source -----

  class FileTree {
    var top: Tnode
    var topLevel: nat

    ghost function View(): FileVar
      reads this
    {
      FileVar(top, topLevel)
    }

    constructor (width: nat)
      requires GoodWidth(width)
      ensures View() == FileVar(Bottom(BlankLeaf(width)), 0) && Valid(View(), width)
    {
      top := Bottom(BlankLeaf(width));
      topLevel := 0;
    }

    static method RequiredDepth(id: nat) returns (depth: nat)
      ensures depth == Depth(id / 16)
    {
      var x: nat := id / 16;
      depth := 0;
      while x != 0
        invariant depth + Depth(x) == Depth(id / 16)
      {
        x := x / 8;
        depth := depth + 1;
      }
    }

    /** yaffs_find_tnode_0 */
    method FindTnode0(id: nat, width: nat) returns (tn: Tnode)
      requires Valid(View(), width)
      ensures tn == Find(View(), id, width)
    {
      if id > MAX_CHUNK_ID { return Nil; }
      var depth := RequiredDepth(id);
      if depth > topLevel { return Nil; }
      tn := top;
      var level: nat := topLevel;
      while level > 0 && !tn.Nil?
        invariant level <= topLevel && Shape(tn, level, width)
        invariant LeafAt(tn, level, id / 16, width) == LeafAt(top, topLevel, id / 16, width)
      {
        tn := tn.kids[Digit(id / 16, level)];
        level := level - 1;
      }
    }

    /** The first half of yaffs_add_find_tnode_0: stack new tnodes on top. */
    method MakeTaller(depth: nat, avail: nat, width: nat) returns (left: nat)
      requires Valid(View(), width)
      modifies this
      ensures (View(), left) == Grow(old(View()), depth, avail, width)
    {
      left := avail;
      while topLevel < depth && left > 0 && topLevel < MAX_LEVEL
        invariant Valid(View(), width)
        invariant Grow(View(), depth, left, width) == Grow(old(View()), depth, avail, width)
        decreases left
      {
        top := Inner([top, Nil, Nil, Nil, Nil, Nil, Nil, Nil]);
        topLevel := topLevel + 1;
        left := left - 1;
      }
    }
  }
}
