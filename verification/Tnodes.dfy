/** Level-0 tnodes: sixteen chunk numbers packed back to back into 32-bit words. */
module Tnodes {
  import opened Words

  /** tnode_mask: (1 << width) - 1 */
  function MaskOf(width: nat): Word { seq(32, i => i < width) }

  const SLOTS := 16

  /** The widths yaffs_guts_initialise can choose. */
  predicate GoodWidth(width: nat) { 16 <= width <= 30 && width % 2 == 0 }

  type Leaf = seq<Word>

  predicate GoodLeaf(m: Leaf, width: nat) { GoodWidth(width) && |m| == width / 2 }

  function BlankLeaf(width: nat): Leaf { seq(width / 2, _ => Zero()) }

  // ----- what a slot is -----

  predicate Bit(m: Leaf, k: nat) { k / 32 < |m| && m[k / 32][k % 32] }

  function SlotBase(width: nat, pos: nat): nat { pos * width }

  lemma SlotFits(width: nat, pos: nat)
    requires GoodWidth(width) && pos < SLOTS
    ensures SlotBase(width, pos) + width <= 32 * (width / 2)
  {
    assert pos * width <= 15 * width;
  }

  lemma {:induction false} SlotsApart(width: nat, p: nat, q: nat)
    requires p < q
    ensures SlotBase(width, p) + width <= SlotBase(width, q)
  {
    assert q * width == (q - 1) * width + width;
    if p < q - 1 { SlotsApart(width, p, q - 1); }
  }

  /** Slot `pos` read off the bits. */
  function Slot(m: Leaf, width: nat, pos: nat): Word
    requires GoodLeaf(m, width) && pos < SLOTS
  {
    seq(32, j requires 0 <= j < 32 => j < width && Bit(m, SlotBase(width, pos) + j))
  }

  /** The leaf with slot `pos` replaced by the low bits of `val`. */
  function SetSlot(m: Leaf, width: nat, pos: nat, val: Word): (r: Leaf)
    requires GoodLeaf(m, width) && pos < SLOTS
    ensures GoodLeaf(r, width)
  {
    var base := SlotBase(width, pos);
    seq(|m|, i requires 0 <= i < |m| => SetWord(m[i], 32 * i, base, width, val))
  }

  /** Word whose first bit is bit `at` of the leaf, with bits base .. base + width taken from `val`. */
  function SetWord(w: Word, at: nat, base: nat, width: nat, val: Word): Word
    requires width <= 32
  {
    seq(32, j requires 0 <= j < 32 => if base <= at + j < base + width then val[at + j - base] else w[j])
  }

  function Low(val: Word, width: nat): Word { And(val, MaskOf(width)) }

  lemma SetSlotBit(m: Leaf, width: nat, pos: nat, val: Word, k: nat)
    requires GoodLeaf(m, width) && pos < SLOTS && k < 32 * |m|
    ensures Bit(SetSlot(m, width, pos, val), k)
         == if SlotBase(width, pos) <= k < SlotBase(width, pos) + width
            then val[k - SlotBase(width, pos)] else Bit(m, k)
  {
  }

  /** Storing in one slot changes that slot, to the stored value, and no other. */
  lemma SlotAfterSet(m: Leaf, width: nat, p: nat, q: nat, val: Word)
    requires GoodLeaf(m, width) && p < SLOTS && q < SLOTS
    ensures Slot(SetSlot(m, width, p, val), width, q) == if p == q then Low(val, width) else Slot(m, width, q)
  {
    SlotFits(width, p);
    SlotFits(width, q);
    if p < q { SlotsApart(width, p, q); }
    if q < p { SlotsApart(width, q, p); }
    var r := SetSlot(m, width, p, val);
    forall j | 0 <= j < width ensures Slot(r, width, q)[j] == if p == q then val[j] else Slot(m, width, q)[j] {
      SetSlotBit(m, width, p, val, SlotBase(width, q) + j);
    }
  }

  // ----- the code -----

  /** yaffs_load_tnode_0, on the words in place. */
  method LoadTnode0(map0: array<Word>, width: nat, pos: nat, val: Word)
    requires GoodLeaf(map0[..], width) && pos < SLOTS
    modifies map0
    ensures map0[..] == SetSlot(old(map0[..]), width, pos, val)
  {
    SlotFits(width, pos);
    var bitInMap := pos * width;
    var word := bitInMap / 32;
    var bit := bitInMap % 32;
    var mask := Shl(MaskOf(width), bit);
    map0[word] := And(map0[word], Not(mask));
    map0[word] := Or(map0[word], And(mask, Shl(val, bit)));
    assert map0[word] == SetWord(old(map0[word]), 32 * word, bitInMap, width, val);
    if width > 32 - bit {
      mask := Shr(MaskOf(width), 32 - bit);
      map0[word + 1] := And(map0[word + 1], Not(mask));
      map0[word + 1] := Or(map0[word + 1], And(mask, Shr(val, 32 - bit)));
      assert map0[word + 1] == SetWord(old(map0[word + 1]), 32 * (word + 1), bitInMap, width, val);
    }
    forall i | 0 <= i < map0.Length ensures map0[i] == SetWord(old(map0[i]), 32 * i, bitInMap, width, val) {
    }
  }

  /** yaffs_get_group_base */
  method GetGroupBase(m: Leaf, width: nat, pos: nat) returns (val: Word)
    requires GoodLeaf(m, width) && pos < SLOTS
    ensures val == Slot(m, width, pos)
  {
    SlotFits(width, pos);
    var bitInMap := pos * width;
    var word := bitInMap / 32;
    var bit := bitInMap % 32;
    val := Shr(m[word], bit);
    if width > 32 - bit {
      val := Or(val, Shl(m[word + 1], 32 - bit));
    }
    val := And(val, MaskOf(width));
    forall j | 0 <= j < width ensures val[j] == Bit(m, bitInMap + j) {
      assert (bitInMap + j) / 32 == if bit + j < 32 then word else word + 1;
    }
    assert val == Slot(m, width, pos);
  }
}
