/** The bits of a byte. */
module ByteBits {
  function Mask(k: nat): bv8 {
    match k case 0 => 0x01 case 1 => 0x02 case 2 => 0x04 case 3 => 0x08
            case 4 => 0x10 case 5 => 0x20 case 6 => 0x40 case _ => 0x80
  }

  predicate Has(b: bv8, k: nat) { b & Mask(k) != 0 }

  lemma MasksApart(k: nat, f: nat)
    requires k < 8 && f < 8 && k != f
    ensures Mask(k) & Mask(f) == 0
  {
  }

  /** Setting and clearing one bit. */
  function SetIn(b: bv8, k: nat): bv8 { b | Mask(k) }
  function ClearIn(b: bv8, k: nat): bv8 { b & !Mask(k) }

  lemma OrBit(b: bv8, m: bv8, x: bv8)
    ensures (b | m) & x != 0 <==> b & x != 0 || m & x != 0
  {
  }

  lemma MaskSelf(k: nat)
    ensures Mask(k) & Mask(k) != 0
  {
  }

  lemma SetInHas(b: bv8, k: nat, x: nat)
    requires k < 8 && x < 8
    ensures Has(SetIn(b, k), x) <==> x == k || Has(b, x)
  {
    hide Mask;
    OrBit(b, Mask(k), Mask(x));
    if k == x { MaskSelf(k); } else { MasksApart(k, x); }
  }

  lemma ClearSame(b: bv8, m: bv8)
    ensures (b & !m) & m == 0
  {
  }

  lemma ClearOther(b: bv8, m: bv8, x: bv8)
    requires m & x == 0
    ensures (b & !m) & x == b & x
  {
  }

  lemma ClearInHas(b: bv8, k: nat, x: nat)
    requires k < 8 && x < 8
    ensures Has(ClearIn(b, k), x) <==> x != k && Has(b, x)
  {
    hide Mask;
    if k == x {
      ClearSame(b, Mask(k));
    } else {
      MasksApart(k, x);
      ClearOther(b, Mask(k), Mask(x));
    }
  }

  lemma ZeroHas(k: nat)
    ensures !Has(0, k)
  {
    hide Mask;
  }

  /** hweight8 */
  function Weight8(b: bv8): nat {
    (if Has(b, 0) then 1 else 0) + (if Has(b, 1) then 1 else 0)
    + (if Has(b, 2) then 1 else 0) + (if Has(b, 3) then 1 else 0)
    + (if Has(b, 4) then 1 else 0) + (if Has(b, 5) then 1 else 0)
    + (if Has(b, 6) then 1 else 0) + (if Has(b, 7) then 1 else 0)
  }
}
