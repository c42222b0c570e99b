/** Dumping a file's leaves to the checkpoint stream and building a tree from them again. */
module TnodeCheckpt {
  import opened Words
  import opened Tnodes
  import opened TnodeTree

  /** A level-0 tnode with the chunk id of its first slot. */
  datatype Record = Record(base: nat, words: Leaf)

  predicate GoodRecords(rs: seq<Record>, width: nat) {
    forall i :: 0 <= i < |rs| ==> rs[i].base % 16 == 0 && GoodLeaf(rs[i].words, width)
  }

  /** yaffs2_checkpt_tnode_worker below `t`, whose upper digits are `offset`. */
  function Dump(t: Tnode, l: nat, offset: nat, width: nat): (rs: seq<Record>)
    requires Shape(t, l, width)
    ensures GoodRecords(rs, width)
    decreases l, 0, 0
  {
    if t.Nil? then []
    else if l == 0 then [Record(16 * offset, t.words)]
    else DumpKids(t.kids, 8, l - 1, offset, width)
  }

  function DumpKids(kids: seq<Tnode>, k: nat, l: nat, offset: nat, width: nat): (rs: seq<Record>)
    requires k <= |kids| && forall i :: 0 <= i < |kids| ==> Shape(kids[i], l, width)
    ensures GoodRecords(rs, width)
    decreases l, 1, k
  {
    if k == 0 then [] else DumpKids(kids, k - 1, l, offset, width) + Dump(kids[k - 1], l, 8 * offset + k - 1, width)
  }

  /** A record appears exactly when the leaf it names is in the tree with those words. */
  lemma {:induction false} DumpRecords(t: Tnode, l: nat, offset: nat, width: nat, q: nat, words: Leaf)
    requires Shape(t, l, width)
    ensures Record(16 * q, words) in Dump(t, l, offset, width)
        <==> Shift(q, l) == offset && LeafAt(t, l, q, width) == Bottom(words)
    decreases l, 0, 0
  {
    if !t.Nil? && l > 0 {
      ShiftNext(q, l - 1);
      DumpKidsRecords(t.kids, 8, l - 1, offset, width, q, words);
    }
  }

  lemma {:induction false} DumpKidsRecords(kids: seq<Tnode>, k: nat, l: nat, offset: nat, width: nat, q: nat,
        words: Leaf)
    requires k <= |kids| <= 8 && forall i :: 0 <= i < |kids| ==> Shape(kids[i], l, width)
    ensures Record(16 * q, words) in DumpKids(kids, k, l, offset, width)
        <==> exists i :: 0 <= i < k && Shift(q, l) == 8 * offset + i && LeafAt(kids[i], l, q, width) == Bottom(words)
    decreases l, 1, k
  {
    if k > 0 {
      DumpKidsRecords(kids, k - 1, l, offset, width, q, words);
      DumpRecords(kids[k - 1], l, 8 * offset + k - 1, width, q, words);
    }
  }

  // ----- yaffs2_rd_checkpt_tnodes -----

  /** Plug each leaf read back into the tree; `avail` bounds the tnodes allocated on the way. */
  function Reload(f: FileVar, rs: seq<Record>, avail: nat, width: nat): (r: AddResult)
    requires Valid(f, width) && GoodRecords(rs, width)
    ensures Valid(r.file, width)
    decreases |rs|
  {
    if rs == [] then AddResult(f, avail, true)
    else
      var a := AddFind(f, rs[0].base, PassedLeaf(rs[0].words), avail, width);
      if a.ok then Reload(a.file, rs[1..], a.avail, width) else a
  }

  /** All records for one leaf agree. */
  ghost predicate Consistent(rs: seq<Record>, q: nat, words: Leaf) {
    forall i :: 0 <= i < |rs| && rs[i].base == 16 * q ==> rs[i].words == words
  }

  lemma {:induction false} ReloadOther(f: FileVar, rs: seq<Record>, avail: nat, width: nat, id: nat)
    requires Valid(f, width) && GoodRecords(rs, width) && id <= MAX_CHUNK_ID
    requires forall i :: 0 <= i < |rs| ==> rs[i].base != 16 * (id / 16)
    ensures Find(Reload(f, rs, avail, width).file, id, width) == Find(f, id, width)
    decreases |rs|
  {
    if rs != [] {
      var a := AddFind(f, rs[0].base, PassedLeaf(rs[0].words), avail, width);
      AddFindEffect(f, rs[0].base, PassedLeaf(rs[0].words), avail, width, id);
      if a.ok { ReloadOther(a.file, rs[1..], a.avail, width, id); }
    }
  }

  lemma {:induction false} ReloadFinds(f: FileVar, rs: seq<Record>, avail: nat, width: nat, id: nat, words: Leaf)
    requires Valid(f, width) && GoodRecords(rs, width) && id <= MAX_CHUNK_ID && Reload(f, rs, avail, width).ok
    requires Consistent(rs, id / 16, words) && GoodLeaf(words, width)
    requires Find(f, id, width) == Bottom(words) || exists i :: 0 <= i < |rs| && rs[i].base == 16 * (id / 16)
    ensures Find(Reload(f, rs, avail, width).file, id, width) == Bottom(words)
    decreases |rs|
  {
    if rs != [] {
      var a := AddFind(f, rs[0].base, PassedLeaf(rs[0].words), avail, width);
      AddFindEffect(f, rs[0].base, PassedLeaf(rs[0].words), avail, width, id);
      if i :| 0 <= i < |rs| && rs[i].base == 16 * (id / 16) && rs[0].base != 16 * (id / 16) {
        assert rs[1..][i - 1] == rs[i];
      }
      assert Consistent(rs[1..], id / 16, words);
      ReloadFinds(a.file, rs[1..], a.avail, width, id, words);
    }
  }

  /** A new file: one blank leaf. */
  function NewFile(width: nat): FileVar { FileVar(Bottom(BlankLeaf(width)), 0) }

  /** With tnodes to spare the reload of in-range records goes through. */
  lemma {:induction false} ReloadSucceeds(f: FileVar, rs: seq<Record>, avail: nat, width: nat)
    requires Valid(f, width) && GoodRecords(rs, width) && avail >= 2 * MAX_LEVEL * |rs|
    requires forall i :: 0 <= i < |rs| ==> rs[i].base <= MAX_CHUNK_ID
    ensures Reload(f, rs, avail, width).ok
    decreases |rs|
  {
    hide AddFind, Valid;
    if rs != [] {
      AddFindSucceeds(f, rs[0].base, PassedLeaf(rs[0].words), avail, width);
      var a := AddFind(f, rs[0].base, PassedLeaf(rs[0].words), avail, width);
      ReloadSucceeds(a.file, rs[1..], a.avail, width);
    }
  }

  /** The checkpoint round trip: whatever the shape and height of the tree, the tree built from
      its dump answers every chunk id as the original does. */
  lemma DumpReload(f: FileVar, avail: nat, width: nat, id: nat)
    requires Valid(f, width)
    requires Reload(NewFile(width), Dump(f.top, f.topLevel, 0, width), avail, width).ok
    ensures ChunkAt(Reload(NewFile(width), Dump(f.top, f.topLevel, 0, width), avail, width).file, id, width)
         == ChunkAt(f, id, width)
  {
    if id <= MAX_CHUNK_ID {
      var rs, q, l := Dump(f.top, f.topLevel, 0, width), id / 16, f.topLevel;
      DepthShift(q, l);
      var leaf := Find(f, id, width);
      if leaf.Bottom? {
        DumpRecords(f.top, l, 0, width, q, leaf.words);
        var i :| 0 <= i < |rs| && rs[i] == Record(16 * q, leaf.words);
        assert Consistent(rs, q, leaf.words) by {
          forall j | 0 <= j < |rs| && rs[j].base == 16 * q ensures rs[j].words == leaf.words {
            DumpRecords(f.top, l, 0, width, q, rs[j].words);
          }
        }
        ReloadFinds(NewFile(width), rs, avail, width, id, leaf.words);
      } else {
        forall j | 0 <= j < |rs| ensures rs[j].base != 16 * q {
          assert rs[j] in rs;
          DumpRecords(f.top, l, 0, width, q, rs[j].words);
        }
        ReloadOther(NewFile(width), rs, avail, width, id);
        BlankSlot(width, id % 16);
      }
    }
  }
}
