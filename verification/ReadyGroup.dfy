/** The ready bitmap of the scheduler and the table-driven search for its lowest set bit. The 32-bit
    word is kept as its four bytes, least significant first. */
module ReadyGroup {
  import opened ByteBits

  type Group = g: seq<bv8> | |g| == 4 witness [0, 0, 0, 0]

  predicate Bit(g: Group, p: nat)
    requires p < 32
  {
    Has(g[p / 8], p % 8)
  }

  function SetBit(g: Group, p: nat): Group
    requires p < 32
  {
    g[p / 8 := SetIn(g[p / 8], p % 8)]
  }

  function ClearBit(g: Group, p: nat): Group
    requires p < 32
  {
    g[p / 8 := ClearIn(g[p / 8], p % 8)]
  }

  function NoneSet(): Group { [0, 0, 0, 0] }

  // ----- setting and clearing -----

  lemma SetBitAt(g: Group, p: nat, q: nat)
    requires p < 32 && q < 32
    ensures Bit(SetBit(g, p), q) <==> q == p || Bit(g, q)
  {
    hide Has, SetIn;
    if p / 8 == q / 8 { SetInHas(g[p / 8], p % 8, q % 8); }
  }

  lemma ClearBitAt(g: Group, p: nat, q: nat)
    requires p < 32 && q < 32
    ensures Bit(ClearBit(g, p), q) <==> q != p && Bit(g, q)
  {
    hide Has, ClearIn;
    if p / 8 == q / 8 { ClearInHas(g[p / 8], p % 8, q % 8); }
  }

  lemma NoneSetBit(p: nat)
    requires p < 32
    ensures !Bit(NoneSet(), p)
  {
    hide Has;
    ZeroHas(p % 8);
  }

  // ----- __rt_ffs -----

  /** __lowest_bit_bitmap: sixteen rows that differ in their first entry only */
  function Lowest(b: bv8): nat {
    match b & 0x0f
    case 0 =>
      (match b >> 4
       case 0 => 0 case 1 => 4 case 2 => 5 case 3 => 4 case 4 => 6 case 5 => 4 case 6 => 5 case 7 => 4
       case 8 => 7 case 9 => 4 case 10 => 5 case 11 => 4 case 12 => 6 case 13 => 4 case 14 => 5 case _ => 4)
    case 1 => 0 case 2 => 1 case 3 => 0 case 4 => 2 case 5 => 0 case 6 => 1 case 7 => 0
    case 8 => 3 case 9 => 0 case 10 => 1 case 11 => 0 case 12 => 2 case 13 => 0 case 14 => 1 case _ => 0
  }

  function Ffs(g: Group): nat {
    if g[0] != 0 then Lowest(g[0]) + 1
    else if g[1] != 0 then Lowest(g[1]) + 9
    else if g[2] != 0 then Lowest(g[2]) + 17
    else if g[3] != 0 then Lowest(g[3]) + 25
    else 0
  }

  lemma LowestSet(b: bv8)
    requires b != 0
    ensures Lowest(b) < 8 && Has(b, Lowest(b))
  {
  }

  lemma LowestLeast(b: bv8, k: nat)
    requires k < Lowest(b)
    ensures !Has(b, k)
  {
  }

  /** Byte `i` is the first that is not zero. */
  lemma FirstByte(g: Group, i: nat)
    requires i < 4 && g[i] != 0 && forall j :: 0 <= j < i ==> g[j] == 0
    ensures var f := 8 * i + Lowest(g[i]); f < 32 && Bit(g, f) && forall p :: 0 <= p < f ==> !Bit(g, p)
  {
    hide Lowest, Has;
    LowestSet(g[i]);
    var f := 8 * i + Lowest(g[i]);
    assert f / 8 == i && f % 8 == Lowest(g[i]);
    forall p | 0 <= p < f ensures !Bit(g, p) {
      if p / 8 < i { ZeroHas(p % 8); } else { LowestLeast(g[i], p % 8); }
    }
  }

  lemma NoByte(g: Group)
    requires g[0] == 0 && g[1] == 0 && g[2] == 0 && g[3] == 0
    ensures forall p :: 0 <= p < 32 ==> !Bit(g, p)
  {
    hide Has;
    forall p | 0 <= p < 32 ensures !Bit(g, p) { ZeroHas(p % 8); }
  }

  /** The search finds the lowest set bit, and says 0 only when there is none. */
  lemma FfsLowest(g: Group)
    ensures Ffs(g) <= 32 && (Ffs(g) == 0 <==> forall p :: 0 <= p < 32 ==> !Bit(g, p))
    ensures Ffs(g) > 0 ==> Bit(g, Ffs(g) - 1) && forall p :: 0 <= p < Ffs(g) - 1 ==> !Bit(g, p)
  {
    hide Lowest, Bit;
    if g[0] != 0 { FirstByte(g, 0); }
    else if g[1] != 0 { FirstByte(g, 1); }
    else if g[2] != 0 { FirstByte(g, 2); }
    else if g[3] != 0 { FirstByte(g, 3); }
    else { NoByte(g); }
  }
}
