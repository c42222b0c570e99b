/** The column parity table of yaffs_ecc.c: bits 7 to 2 hold the column parities of a byte and their
    complements, bit 0 its overall parity. */
module EccTable {
  import opened ByteBits

  function Row0(n: bv8): bv8 {
    match n
    case 0 => 0x00 case 1 => 0x55 case 2 => 0x59 case 3 => 0x0c
    case 4 => 0x65 case 5 => 0x30 case 6 => 0x3c case 7 => 0x69
    case 8 => 0x69 case 9 => 0x3c case 10 => 0x30 case 11 => 0x65
    case 12 => 0x0c case 13 => 0x59 case 14 => 0x55 case _ => 0x00
  }

  function Row1(n: bv8): bv8 {
    match n
    case 0 => 0x95 case 1 => 0xc0 case 2 => 0xcc case 3 => 0x99
    case 4 => 0xf0 case 5 => 0xa5 case 6 => 0xa9 case 7 => 0xfc
    case 8 => 0xfc case 9 => 0xa9 case 10 => 0xa5 case 11 => 0xf0
    case 12 => 0x99 case 13 => 0xcc case 14 => 0xc0 case _ => 0x95
  }

  function Row2(n: bv8): bv8 {
    match n
    case 0 => 0x99 case 1 => 0xcc case 2 => 0xc0 case 3 => 0x95
    case 4 => 0xfc case 5 => 0xa9 case 6 => 0xa5 case 7 => 0xf0
    case 8 => 0xf0 case 9 => 0xa5 case 10 => 0xa9 case 11 => 0xfc
    case 12 => 0x95 case 13 => 0xc0 case 14 => 0xcc case _ => 0x99
  }

  function Row3(n: bv8): bv8 {
    match n
    case 0 => 0x0c case 1 => 0x59 case 2 => 0x55 case 3 => 0x00
    case 4 => 0x69 case 5 => 0x3c case 6 => 0x30 case 7 => 0x65
    case 8 => 0x65 case 9 => 0x30 case 10 => 0x3c case 11 => 0x69
    case 12 => 0x00 case 13 => 0x55 case 14 => 0x59 case _ => 0x0c
  }

  function Row4(n: bv8): bv8 {
    match n
    case 0 => 0xa5 case 1 => 0xf0 case 2 => 0xfc case 3 => 0xa9
    case 4 => 0xc0 case 5 => 0x95 case 6 => 0x99 case 7 => 0xcc
    case 8 => 0xcc case 9 => 0x99 case 10 => 0x95 case 11 => 0xc0
    case 12 => 0xa9 case 13 => 0xfc case 14 => 0xf0 case _ => 0xa5
  }

  function Row5(n: bv8): bv8 {
    match n
    case 0 => 0x30 case 1 => 0x65 case 2 => 0x69 case 3 => 0x3c
    case 4 => 0x55 case 5 => 0x00 case 6 => 0x0c case 7 => 0x59
    case 8 => 0x59 case 9 => 0x0c case 10 => 0x00 case 11 => 0x55
    case 12 => 0x3c case 13 => 0x69 case 14 => 0x65 case _ => 0x30
  }

  function Row6(n: bv8): bv8 {
    match n
    case 0 => 0x3c case 1 => 0x69 case 2 => 0x65 case 3 => 0x30
    case 4 => 0x59 case 5 => 0x0c case 6 => 0x00 case 7 => 0x55
    case 8 => 0x55 case 9 => 0x00 case 10 => 0x0c case 11 => 0x59
    case 12 => 0x30 case 13 => 0x65 case 14 => 0x69 case _ => 0x3c
  }

  function Row7(n: bv8): bv8 {
    match n
    case 0 => 0xa9 case 1 => 0xfc case 2 => 0xf0 case 3 => 0xa5
    case 4 => 0xcc case 5 => 0x99 case 6 => 0x95 case 7 => 0xc0
    case 8 => 0xc0 case 9 => 0x95 case 10 => 0x99 case 11 => 0xcc
    case 12 => 0xa5 case 13 => 0xf0 case 14 => 0xfc case _ => 0xa9
  }

  function Row8(n: bv8): bv8 {
    match n
    case 0 => 0xa9 case 1 => 0xfc case 2 => 0xf0 case 3 => 0xa5
    case 4 => 0xcc case 5 => 0x99 case 6 => 0x95 case 7 => 0xc0
    case 8 => 0xc0 case 9 => 0x95 case 10 => 0x99 case 11 => 0xcc
    case 12 => 0xa5 case 13 => 0xf0 case 14 => 0xfc case _ => 0xa9
  }

  function Row9(n: bv8): bv8 {
    match n
    case 0 => 0x3c case 1 => 0x69 case 2 => 0x65 case 3 => 0x30
    case 4 => 0x59 case 5 => 0x0c case 6 => 0x00 case 7 => 0x55
    case 8 => 0x55 case 9 => 0x00 case 10 => 0x0c case 11 => 0x59
    case 12 => 0x30 case 13 => 0x65 case 14 => 0x69 case _ => 0x3c
  }

  function RowA(n: bv8): bv8 {
    match n
    case 0 => 0x30 case 1 => 0x65 case 2 => 0x69 case 3 => 0x3c
    case 4 => 0x55 case 5 => 0x00 case 6 => 0x0c case 7 => 0x59
    case 8 => 0x59 case 9 => 0x0c case 10 => 0x00 case 11 => 0x55
    case 12 => 0x3c case 13 => 0x69 case 14 => 0x65 case _ => 0x30
  }

  function RowB(n: bv8): bv8 {
    match n
    case 0 => 0xa5 case 1 => 0xf0 case 2 => 0xfc case 3 => 0xa9
    case 4 => 0xc0 case 5 => 0x95 case 6 => 0x99 case 7 => 0xcc
    case 8 => 0xcc case 9 => 0x99 case 10 => 0x95 case 11 => 0xc0
    case 12 => 0xa9 case 13 => 0xfc case 14 => 0xf0 case _ => 0xa5
  }

  function RowC(n: bv8): bv8 {
    match n
    case 0 => 0x0c case 1 => 0x59 case 2 => 0x55 case 3 => 0x00
    case 4 => 0x69 case 5 => 0x3c case 6 => 0x30 case 7 => 0x65
    case 8 => 0x65 case 9 => 0x30 case 10 => 0x3c case 11 => 0x69
    case 12 => 0x00 case 13 => 0x55 case 14 => 0x59 case _ => 0x0c
  }

  function RowD(n: bv8): bv8 {
    match n
    case 0 => 0x99 case 1 => 0xcc case 2 => 0xc0 case 3 => 0x95
    case 4 => 0xfc case 5 => 0xa9 case 6 => 0xa5 case 7 => 0xf0
    case 8 => 0xf0 case 9 => 0xa5 case 10 => 0xa9 case 11 => 0xfc
    case 12 => 0x95 case 13 => 0xc0 case 14 => 0xcc case _ => 0x99
  }

  function RowE(n: bv8): bv8 {
    match n
    case 0 => 0x95 case 1 => 0xc0 case 2 => 0xcc case 3 => 0x99
    case 4 => 0xf0 case 5 => 0xa5 case 6 => 0xa9 case 7 => 0xfc
    case 8 => 0xfc case 9 => 0xa9 case 10 => 0xa5 case 11 => 0xf0
    case 12 => 0x99 case 13 => 0xcc case 14 => 0xc0 case _ => 0x95
  }

  function RowF(n: bv8): bv8 {
    match n
    case 0 => 0x00 case 1 => 0x55 case 2 => 0x59 case 3 => 0x0c
    case 4 => 0x65 case 5 => 0x30 case 6 => 0x3c case 7 => 0x69
    case 8 => 0x69 case 9 => 0x3c case 10 => 0x30 case 11 => 0x65
    case 12 => 0x0c case 13 => 0x59 case 14 => 0x55 case _ => 0x00
  }

  /** column_parity_table[b], row by row */
  function Column(b: bv8): bv8 {
    var n := b & 0x0f;
    match b >> 4
    case 0 => Row0(n)
    case 1 => Row1(n)
    case 2 => Row2(n)
    case 3 => Row3(n)
    case 4 => Row4(n)
    case 5 => Row5(n)
    case 6 => Row6(n)
    case 7 => Row7(n)
    case 8 => Row8(n)
    case 9 => Row9(n)
    case 10 => RowA(n)
    case 11 => RowB(n)
    case 12 => RowC(n)
    case 13 => RowD(n)
    case 14 => RowE(n)
    case _ => RowF(n)
  }

  // ----- what the table computes -----

  /** The entry of a byte with only bit `k` set. */
  function Unit(k: nat): bv8 {
    match k case 0 => 0x55 case 1 => 0x59 case 2 => 0x65 case 3 => 0x69
            case 4 => 0x95 case 5 => 0x99 case 6 => 0xa5 case _ => 0xa9
  }

  function Pick(b: bv8, k: nat): bv8 { if Has(b, k) then Unit(k) else 0 }

  function Two(b: bv8, k: nat): bv8 { Pick(b, k) ^ Pick(b, k + 1) }
  function Four(b: bv8, k: nat): bv8 { Two(b, k) ^ Two(b, k + 2) }

  /** The exclusive or of the entries of its bits. */
  function Mix(b: bv8): bv8 { Four(b, 0) ^ Four(b, 4) }

  lemma Row0Mix(n: bv8)
    requires n < 16
    ensures Row0(n) == Mix(0x00 | n)
  {
  }

  lemma Row1Mix(n: bv8)
    requires n < 16
    ensures Row1(n) == Mix(0x10 | n)
  {
  }

  lemma Row2Mix(n: bv8)
    requires n < 16
    ensures Row2(n) == Mix(0x20 | n)
  {
  }

  lemma Row3Mix(n: bv8)
    requires n < 16
    ensures Row3(n) == Mix(0x30 | n)
  {
  }

  lemma Row4Mix(n: bv8)
    requires n < 16
    ensures Row4(n) == Mix(0x40 | n)
  {
  }

  lemma Row5Mix(n: bv8)
    requires n < 16
    ensures Row5(n) == Mix(0x50 | n)
  {
  }

  lemma Row6Mix(n: bv8)
    requires n < 16
    ensures Row6(n) == Mix(0x60 | n)
  {
  }

  lemma Row7Mix(n: bv8)
    requires n < 16
    ensures Row7(n) == Mix(0x70 | n)
  {
  }

  lemma Row8Mix(n: bv8)
    requires n < 16
    ensures Row8(n) == Mix(0x80 | n)
  {
  }

  lemma Row9Mix(n: bv8)
    requires n < 16
    ensures Row9(n) == Mix(0x90 | n)
  {
  }

  lemma RowAMix(n: bv8)
    requires n < 16
    ensures RowA(n) == Mix(0xa0 | n)
  {
  }

  lemma RowBMix(n: bv8)
    requires n < 16
    ensures RowB(n) == Mix(0xb0 | n)
  {
  }

  lemma RowCMix(n: bv8)
    requires n < 16
    ensures RowC(n) == Mix(0xc0 | n)
  {
  }

  lemma RowDMix(n: bv8)
    requires n < 16
    ensures RowD(n) == Mix(0xd0 | n)
  {
  }

  lemma RowEMix(n: bv8)
    requires n < 16
    ensures RowE(n) == Mix(0xe0 | n)
  {
  }

  lemma RowFMix(n: bv8)
    requires n < 16
    ensures RowF(n) == Mix(0xf0 | n)
  {
  }

  lemma ColumnIsMix(b: bv8)
    ensures Column(b) == Mix(b)
  {
    hide Mix, Row0, Row1, Row2, Row3, Row4, Row5, Row6, Row7, Row8, Row9, RowA, RowB, RowC, RowD, RowE, RowF;
    var n := b & 0x0f;
    assert b == ((b >> 4) << 4) | n;
    match b >> 4
    case 0 => Row0Mix(n);
    case 1 => Row1Mix(n);
    case 2 => Row2Mix(n);
    case 3 => Row3Mix(n);
    case 4 => Row4Mix(n);
    case 5 => Row5Mix(n);
    case 6 => Row6Mix(n);
    case 7 => Row7Mix(n);
    case 8 => Row8Mix(n);
    case 9 => Row9Mix(n);
    case 10 => RowAMix(n);
    case 11 => RowBMix(n);
    case 12 => RowCMix(n);
    case 13 => RowDMix(n);
    case 14 => RowEMix(n);
    case _ => RowFMix(n);
  }

  // ----- flipping one bit -----

  lemma OtherBits(b: bv8, m: bv8, g: bv8)
    requires m & g == 0
    ensures (b ^ g) & m == b & m
  {
  }

  lemma SameBit(b: bv8, k: nat)
    requires k < 8
    ensures (b ^ Mask(k)) & Mask(k) != 0 <==> b & Mask(k) == 0
  {
    match k
    case 0 => case 1 => case 2 => case 3 => case 4 => case 5 => case 6 => case _ =>
  }

  lemma XorSelf(u: bv8)
    ensures 0 ^ u == u && u ^ u == 0
  {
  }

  lemma HasFlip(b: bv8, k: nat, f: nat)
    requires k < 8 && f < 8
    ensures Has(b ^ Mask(f), k) <==> (Has(b, k) != (k == f))
  {
    hide Mask;
    if k == f {
      SameBit(b, k);
    } else {
      MasksApart(k, f);
      OtherBits(b, Mask(k), Mask(f));
    }
  }

  lemma PickFlip(b: bv8, k: nat, f: nat)
    requires k < 8 && f < 8
    ensures Pick(b ^ Mask(f), k) == if k == f then Pick(b, k) ^ Unit(k) else Pick(b, k)
  {
    hide Mask, Unit, Has;
    XorSelf(Unit(k));
    HasFlip(b, k, f);
  }

  lemma XorLast(m: bv8, p: bv8, u: bv8)
    ensures (m ^ u) ^ p == (m ^ p) ^ u && m ^ (p ^ u) == (m ^ p) ^ u
  {
  }

  lemma TwoFlip(b: bv8, k: nat, f: nat)
    requires k <= 6 && f < 8
    ensures Two(b ^ Mask(f), k) == if k <= f < k + 2 then Two(b, k) ^ Unit(f) else Two(b, k)
  {
    hide Mask, Unit, Pick;
    PickFlip(b, k, f);
    PickFlip(b, k + 1, f);
    XorLast(Pick(b, k), Pick(b, k + 1), Unit(f));
  }

  lemma FourFlip(b: bv8, k: nat, f: nat)
    requires k <= 4 && f < 8
    ensures Four(b ^ Mask(f), k) == if k <= f < k + 4 then Four(b, k) ^ Unit(f) else Four(b, k)
  {
    hide Mask, Unit, Two;
    TwoFlip(b, k, f);
    TwoFlip(b, k + 2, f);
    XorLast(Two(b, k), Two(b, k + 2), Unit(f));
  }

  lemma MixFlip(b: bv8, f: nat)
    requires f < 8
    ensures Mix(b ^ Mask(f)) == Mix(b) ^ Unit(f)
  {
    hide Mask, Unit, Four;
    FourFlip(b, 0, f);
    FourFlip(b, 4, f);
    XorLast(Four(b, 0), Four(b, 4), Unit(f));
  }

  function X8(a: bv8, b: bv8): bv8 { a ^ b }

  function Toggle(b: bv8, f: nat): bv8 { b ^ Mask(f) }

  /** Flipping bit `f` of a byte flips the bits of that unit in its entry. */
  lemma ColumnFlip(b: bv8, f: nat)
    requires f < 8
    ensures Column(Toggle(b, f)) == X8(Column(b), Unit(f))
  {
    hide Mask, Unit, Mix, Column;
    ColumnIsMix(b);
    ColumnIsMix(b ^ Mask(f));
    MixFlip(b, f);
  }

  lemma X8Facts(m: bv8, p: bv8, u: bv8)
    ensures X8(X8(m, u), p) == X8(X8(m, p), u) && X8(m, X8(p, u)) == X8(X8(m, p), u)
    ensures X8(m, m) == 0 && X8(m, X8(m, p)) == p && X8(m, p) == X8(p, m)
  {
    hide X8;
    X8Assoc(m, p, u);
    X8Comm(p, u);
    X8Assoc(m, u, p);
    X8Comm(m, p);
    X8Self(m, p);
  }

  lemma X8Assoc(m: bv8, p: bv8, u: bv8)
    ensures X8(m, X8(p, u)) == X8(X8(m, p), u)
  {
  }

  lemma X8Comm(m: bv8, p: bv8)
    ensures X8(m, p) == X8(p, m)
  {
  }

  lemma X8Self(m: bv8, p: bv8)
    ensures X8(m, m) == 0 && X8(m, X8(m, p)) == p
  {
  }

  lemma ToggleTwice(b: bv8, f: nat)
    ensures Toggle(Toggle(b, f), f) == b
  {
    hide Mask;
  }
}
