/** Two errors at once of which at least one is in the stored ECC. */
module EccDoubles {
  import opened Basics
  import opened Words
  import opened ByteBits
  import opened EccTable
  import opened Ecc

  // ----- the bits of a stored ECC -----

  datatype EccBit = ColBit(k: nat) | LineBit(k: nat) | PrimeBit(k: nat)

  predicate Exists(b: EccBit) { if b.ColBit? then b.k < 8 else b.k < 32 }

  function One(k: nat): Word { seq(32, i => i == k) }

  function ColPart(b: EccBit): bv8 { if b.ColBit? then Mask(b.k) else 0 }
  function LinePart(b: EccBit): Word { if b.LineBit? then One(b.k) else Zero() }
  function PrimePart(b: EccBit): Word { if b.PrimeBit? then One(b.k) else Zero() }

  function FlipEcc(e: Ecc, b: EccBit): Ecc {
    Ecc(X8(e.col, ColPart(b)), Xor(e.line, LinePart(b)), Xor(e.prime, PrimePart(b)))
  }

  // ----- counting bits -----

  lemma {:induction false} Complement(a: seq<bool>, b: seq<bool>)
    requires |a| == |b| && forall i :: 0 <= i < |a| ==> a[i] != b[i]
    ensures Ones(a) + Ones(b) == |a|
  {
    if a != [] { Complement(a[1..], b[1..]); }
  }

  lemma {:induction false} OnesFlip(s: seq<bool>, k: nat)
    requires k < |s|
    ensures Ones(s[k := !s[k]]) == Ones(s) + if s[k] then -1 else 1
  {
    if k == 0 {
      assert s[0 := !s[0]][1..] == s[1..];
    } else {
      assert s[k := !s[k]][1..] == s[1..][k - 1 := !s[k]];
      OnesFlip(s[1..], k - 1);
    }
  }

  lemma OneOnes(k: nat)
    requires k < 32
    ensures Ones(One(k)) == 1 && Ones(Zero()) == 0
  {
    OnesSingle(One(k), k);
    OnesZero(Zero());
  }

  lemma XorOne(w: Word, k: nat)
    requires k < 32
    ensures Xor(w, One(k)) == w[k := !w[k]] && Xor(w, Zero()) == w && Xor(Zero(), w) == w
  {
  }

  lemma MaskPairs(k: nat, m: nat)
    requires k < 8 && m < 8 && k != m
    ensures Weight8(X8(Mask(k), Mask(m))) == 2
  {
    match k
    case 0 => case 1 => case 2 => case 3 => case 4 => case 5 => case 6 => case _ =>
  }

  lemma XorPairs(b: EccBit, c: EccBit)
    requires Exists(b) && Exists(c) && b != c
    ensures Weight8(X8(ColPart(b), ColPart(c))) + Ones(Xor(LinePart(b), LinePart(c)))
            + Ones(Xor(PrimePart(b), PrimePart(c))) == 2
  {
    hide Xor, X8, Mask, Weight8, Ones, One;
    ZeroWords();
    X8Facts(0, 0, 0);
    XorOne(Zero(), 0);
    PartWeights(b);
    PartWeights(c);
    X8Zero(ColPart(b));
    X8Zero(ColPart(c));
    if !b.ColBit? { XorOne(One(b.k), 0); }
    if !c.ColBit? { XorOne(One(c.k), 0); }
    if b.ColBit? && c.ColBit? { MaskPairs(b.k, c.k); }
    if b.k != c.k && b.k < 32 && c.k < 32 { TwoOnes(b.k, c.k); }
  }

  lemma X8Zero(c: bv8)
    ensures X8(c, 0) == c && X8(0, c) == c
  {
  }

  lemma PartWeights(b: EccBit)
    requires Exists(b)
    ensures b.ColBit? ==> Weight8(Mask(b.k)) == 1
    ensures !b.ColBit? ==> Ones(One(b.k)) == 1
  {
    hide Mask, Weight8, Ones, One;
    if b.ColBit? { MaskWeight(b.k); } else { OneOnes(b.k); }
  }

  lemma TwoOnes(k: nat, m: nat)
    requires k < 32 && m < 32 && k != m
    ensures Ones(Xor(One(k), One(m))) == 2
  {
    XorOne(One(k), m);
    OnesFlip(One(k), m);
    OneOnes(k);
  }

  lemma NotComplement(a: Word, b: Word)
    requires a == Not(b)
    ensures Ones(a) + Ones(b) == 32
  {
    Complement(a, b);
  }

  /** The difference that a flipped bit of the ECC makes to a difference. */
  lemma Undone(e: Ecc, b: EccBit, good: Ecc)
    ensures var r := FlipEcc(e, b);
      && X8(r.col, good.col) == X8(X8(e.col, good.col), ColPart(b))
      && Xor(r.line, good.line) == Xor(Xor(e.line, good.line), LinePart(b))
      && Xor(r.prime, good.prime) == Xor(Xor(e.prime, good.prime), PrimePart(b))
  {
    hide ColPart, LinePart, PrimePart, Xor, X8;
    XorWords(e.line, LinePart(b), good.line);
    XorWords(e.prime, PrimePart(b), good.prime);
    X8Facts(e.col, ColPart(b), good.col);
    X8Facts(e.col, good.col, ColPart(b));
  }

  // ----- what the decoder does -----

  /** Any two flipped bits of the stored ECC are reported as beyond repair, and nothing is changed. */
  lemma DoubleEccBit(data: Bytes, good: Ecc, b: EccBit, c: EccBit)
    requires Exists(b) && Exists(c) && b != c
    ensures var read := FlipEcc(FlipEcc(good, b), c); Correct(data, read, good) == Outcome(data, read, -1)
  {
    var read := FlipEcc(FlipEcc(good, b), c);
    hide Xor, X8, Ones, Weight8, PairsDiffer, BitOf, ColPart, LinePart, PrimePart, FlipEcc, Value, Toggle, Not;
    Undone(FlipEcc(good, b), c, good);
    Undone(good, b, good);
    XorWords(good.line, good.line, good.line);
    XorWords(good.prime, good.prime, good.prime);
    X8Facts(good.col, 0, 0);
    XorOne(LinePart(b), 0);
    XorOne(PrimePart(b), 0);
    X8Zero(ColPart(b));
    XorPairs(b, c);
    ZeroWords();
    var dl, dp := Xor(LinePart(b), LinePart(c)), Xor(PrimePart(b), PrimePart(c));
    if dl == Not(dp) { NotComplement(dl, dp); }
  }

  lemma PairBroken(f: nat, k: nat)
    requires f < 8 && k < 8
    ensures PairsDiffer(X8(Top6(Unit(f)), Mask(k))) <==> k >= 6
    ensures k >= 6 ==> BitOf(X8(Top6(Unit(f)), Mask(k))) == f && X8(Top6(Unit(f)), Mask(k)) != 0
  {
    match f
    case 0 => case 1 => case 2 => case 3 => case 4 => case 5 => case 6 => case _ =>
  }

  /** One flipped data bit together with a flipped bit of either line parity, or of the six column bits in
      use, is reported as beyond repair; with one of the two column bits not in use the data is repaired. */
  lemma DataAndEccBit(data: Bytes, i: nat, f: nat, b: EccBit)
    requires i < |data| <= Pow2(32) && f < 8 && Exists(b)
    ensures var bad, read := Flip(data, i, f), FlipEcc(Calc(data), b);
      Correct(bad, read, Calc(bad)) == if b.ColBit? && b.k >= 6 then Outcome(data, read, 1) else Outcome(bad, read, -1)
  {
    hide Calc, Xor, OfNat, Not, Unit, X8, Toggle, PairsDiffer, BitOf, Top6, Ones, Weight8, Pow2, Value;
    hide FlipEcc, One, Mask;
    var bad := Flip(data, i, f);
    FlipDelta(data, i, f);
    Undone(Calc(data), b, Calc(bad));
    NotNot(OfNat(i));
    NotComplement(OfNat(i), Not(OfNat(i)));
    XorOne(OfNat(i), 0);
    XorOne(Not(OfNat(i)), 0);
    if b.ColBit? {
      PairBroken(f, b.k);
      IndexBack(i);
      ToggleTwice(data[i], f);
      assert Flip(data, i, f)[i := data[i]] == data;
      ZeroWords();
      if OfNat(i) == Zero() { NotZero(); }
    } else {
      var l, p := OfNat(i), Not(OfNat(i));
      XorOne(l, b.k);
      XorOne(p, b.k);
      OnesFlip(l, b.k);
      OnesFlip(p, b.k);
      OneDiffers(l, b.k);
      OnesZeroWord();
    }
  }

  lemma OnesZeroWord()
    ensures Ones(Zero()) == 0
  {
    OnesZero(Zero());
  }

  lemma NotZero()
    ensures Not(Zero()) != Zero()
  {
    assert Not(Zero())[0] != Zero()[0];
  }

  /** A word and its complement with one bit of either flipped are complements no more. */
  lemma OneDiffers(l: Word, k: nat)
    requires k < 32
    ensures l[k := !l[k]] != Not(Not(l)) && l != Not(Not(l)[k := !Not(l)[k]])
  {
    assert Not(Not(l))[k] == l[k];
    assert Not(Not(l)[k := !Not(l)[k]])[k] == !l[k];
  }
}
